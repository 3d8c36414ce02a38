# Postprocessing of Thomson-scattering fits, modelled in Dafny

This project models the index and layout rules of `tsadar/utils/process/postprocess.py`. That module runs after the optimizer has fitted plasma parameters for batches of lineouts. It has four parts:

- **Reconstruction of the fitted parameters** (module `Reconstruct`). The list of per-batch `species -> key -> array` dictionaries in `fitted_weights` becomes one `species -> key -> concatenated array` dictionary, `all_params`. Along the way `num_params` counts its scalars.
- **The chunked evaluation** (modules `Layout`, `Evaluate`, `Recalculate`).
  - `sample_indices` is sorted in place and reshaped into rows of `batch_size`.
  - Every row is evaluated with its batch's weights, and its losses, squared deviations, fits and sigmas are scattered into dense zero-initialised arrays at the row's indices.
  - The `calc_sigma` flag can only fall.
- **`get_sigmas`** (module `Sigmas`).
  - For each sample `i` of a batch, a square matrix is assembled from the `[i, i]` entry of every Hessian block, with the counters `k1`/`k2`.
  - The matrix is inverted.
  - Each diagonal entry `d` of the inverse is reported as `sign(d) * sqrt(|d|)`.
- **`refit_bad_fits`** (module `Refit`).
  - Samples whose reduced loss exceeds `refit_thresh` are selected. Index 0 is always skipped.
  - Each selected sample `i` is warm-started from slot `((i-1)//tbs, (i-1)%tbs)` of the fitted weights, where `tbs` is the original batch size. It is re-optimized and written back to slot `(i//tbs, i%tbs)`.
  - `config["optimizer"]["batch_size"]` is overwritten through a shallow copy and restored at the end.

Parameter values, losses and Hessian entries are `real`s. The foreign computations are parameters of the model: the forward model `array_loss`, the Hessian `h_loss_wrt_params`, `np.linalg.inv`, `np.sqrt` and the optimizer. The model places constraints on them only where the source depends on them:

- an inverse has the size of its argument;
- `sqrt` is a square root on non-negative reals.

The state the source mutates is kept as imperative state:

- `sample_indices` and `batch_indices` are `array<nat>` sorted in place;
- the dense result arrays are arrays inside the class `Evaluate.Dense`;
- `temp` and `sigmas` in `get_sigmas` are `array2<real>`;
- `config` and `fitted_weights` are the classes `Refit.Config` and `Refit.Weights`.

Each method is proved against a specification function, such as `Reconstruct.Reconstructed`, `Evaluate.After`, `Sigmas.SigmasSpec` or `Refit.RefitAll`. The properties are then proved of those functions as lemmas.

A Python dict is `Base.Dict`: its insertion order plus its entries. An exception is an `Err` of `Base.Result` or a `Some` error of a `Refit.Run`, with the exception's kind. Where the specification text and the code disagree, the model follows the code:

- **Reduced losses.** The denominator uses `len(all_params)`, the number of species, not `num_params`.
- **Missing parameters.** A batch with no entry for a configured species raises KeyError. A key missing from some batches is not an error; it gets the pieces of the batches that have it.
- **Singular matrices.** A singular assembled matrix makes `np.linalg.inv` raise, and nothing catches it. The whole evaluation fails; sigma computation is not merely switched off.
- **Names in `get_sigmas`.** `sizes` is keyed by the string `key + species`. Two pairs whose concatenations coincide, such as species `a` with key `bc` and species `ca` with key `b`, share one entry: the later width wins and `actual_num_params` counts it once.
- **Assembled matrix size.** The matrix has the summed block widths as its size. The counters `k1`/`k2` advance by one per block pair, so the rows and columns past the number of pairs stay zero.
- **Warm start.** Sample `i` is warm-started from the slot of sample `i - 1`, not from its own.
- **Restoring `batch_size`.** It is restored only when the refit loop finishes. If an exception leaves the loop, `config` keeps `batch_size == 1`.
- **Optimizer failures.** Nothing catches them; the optimizer is a total function in this model.

## Model

| member | source | states |
|---|---|---|
| Reconstruct.Reconstruct | tsadar/utils/process/postprocess.py:36-49 | Raises KeyError exactly when some batch lacks a configured species. Otherwise `all_params` has the configured species in configuration order. Each species has its keys in order of first appearance across the batches. Each key holds the concatenation, in batch order, of that key's arrays from the batches that have it. `num_params` is the summed length of all concatenated arrays. |
| Reconstruct.Gather | tsadar/utils/process/postprocess.py:38-42 | The append loops over all batches succeed exactly when every batch has every configured species (KeyError otherwise). Each species' lists then hold that key's arrays in batch order. |
| Reconstruct.GatherBatch | tsadar/utils/process/postprocess.py:39-42 | One batch's appends succeed exactly when the batch has every configured species. They extend each species' lists by that batch's arrays. |
| Reconstruct.AppendBatch | tsadar/utils/process/postprocess.py:41-42 | Appending through a defaultdict adds each new key at the end in the batch's key order, and appends the batch's array to that key's list only. |
| Reconstruct.AddUnseenMembers | tsadar/utils/process/postprocess.py:41-42 | The defaultdict's keys after the appends are the old keys plus the incoming ones, and stay distinct. |
| Reconstruct.KeyOrderMembers | tsadar/utils/process/postprocess.py:36-42 | The reconstructed keys of a species are distinct, and are exactly the keys some batch has for it. |
| Reconstruct.PiecesOutside | tsadar/utils/process/postprocess.py:39-42 | A key no batch has contributes nothing. |
| Reconstruct.PiecesAllBatches | tsadar/utils/process/postprocess.py:39-42 | A key every batch has gets one piece per batch, in batch order. |
| Reconstruct.ReconstructRechunk | tsadar/utils/process/postprocess.py:44-47 | When every batch holds `bs` values for a key, the concatenation has `bs` values per batch. Cutting it back into rows of `bs` gives each batch's array: the round trip of concatenation. |
| Reconstruct.ConcatSpecies | tsadar/utils/process/postprocess.py:45-48 | Concatenating one species keeps its key order. Each key holds the concatenation of its pieces, and the counter grows by their summed length. |
| Reconstruct.ConcatAll | tsadar/utils/process/postprocess.py:44-48 | After the concatenation loops, the result holds every species in order, concatenated, and `num_params` is the total scalar count. |
| Layout.SortInPlace | tsadar/utils/process/postprocess.py:32 | `sample_indices.sort()` leaves the array ascending and a permutation of its old contents. |
| Layout.SortSeqSorted | tsadar/utils/process/postprocess.py:32 | The sorted arrangement is ascending and has the same elements. |
| Layout.SortedUnique | tsadar/utils/process/postprocess.py:32 | Two ascending arrangements of the same elements are equal, so the sort's result is determined. |
| Layout.Reshape | tsadar/utils/process/postprocess.py:33 | `np.reshape(s, (-1, bs))` succeeds exactly when `bs > 0` and `bs` divides the length, and raises ValueError otherwise. |
| Layout.RowsAt | tsadar/utils/process/postprocess.py:32-33 | There are `len / bs` rows, and row `b` holds exactly positions `b*bs .. b*bs+bs-1` of the sorted indices. |
| Layout.RowsFlatten | tsadar/utils/process/postprocess.py:33 | Flattening the reshaped rows gives back the sorted indices. |
| Layout.RowsWidth | tsadar/utils/process/postprocess.py:33 | Every row has `bs` entries. |
| Layout.FlattenRows | tsadar/utils/process/postprocess.py:33 | Reshaping arrays of `bs` values laid end to end gives the arrays back. |
| Layout.ChunksDisjoint | tsadar/utils/process/postprocess.py:32-33 | Distinct sample indices give rows that never share an index. |
| Layout.ScatterInto | tsadar/utils/process/postprocess.py:113 | `a[inds] = vals` applies the writes in index order to the caller's array. |
| Layout.ScatteredAt | tsadar/utils/process/postprocess.py:113 | With distinct indices, position `inds[j]` receives `vals[j]`. |
| Layout.ScatteredElsewhere | tsadar/utils/process/postprocess.py:113 | A position no index names keeps its value. |
| Layout.ScatteredRowsAt | tsadar/utils/process/postprocess.py:93-121 | With indices distinct across all rows, after every row has scattered, position `rows[b][j]` holds row `b`'s `j`-th value. |
| Layout.ScatteredRowsElsewhere | tsadar/utils/process/postprocess.py:93-121 | After every row has scattered, a position no row names keeps its initial value. |
| Recalculate.ChunksCoverSamples | tsadar/utils/process/postprocess.py:31-33 | The rows hold each sample index exactly as often as `sample_indices` does, each row has `batch_size` entries, and distinct sample indices give disjoint rows. |
| Recalculate.RecalculateWithChosenWeights | tsadar/utils/process/postprocess.py:13-123 | Sorts `sample_indices` in place. A reshape that does not fit raises ValueError. The call raises nothing exactly when the reshape and the reconstruction succeed and every chunk runs, with `used_points` and `sigmas` bound. The arrays it returns are those of the chunk loop, and `all_params` is the reconstruction. |
| Evaluate.EvalChunk | tsadar/utils/process/postprocess.py:94-117 | One chunk raises nothing exactly when the chunk's conditions hold: its batch exists, its indices fit every array they index and assign, and its results have the shape of their slots. The same holds for its sigmas while the flag is set. It returns `array_loss`'s output and, while the flag is still set, `get_sigmas` of the Hessian. The new flag is the old one and the Hessian's success. |
| Evaluate.Dense.Write | tsadar/utils/process/postprocess.py:113-121 | Writing a chunk's results moves every dense array from its state after the earlier chunks to its state after this one. |
| Evaluate.WriteLosses | tsadar/utils/process/postprocess.py:113 | `losses[inds] = loss` moves the losses array one chunk on. |
| Evaluate.WriteField | tsadar/utils/process/postprocess.py:114-115 | The `sqdevs` and `fits` assignments move their arrays one chunk on. |
| Evaluate.WriteSigmas | tsadar/utils/process/postprocess.py:116-117 | `sigmas[inds] = ...` runs only while the flag is set, and moves `sigmas` one chunk on. |
| Evaluate.ChunkLoop | tsadar/utils/process/postprocess.py:93-121 | The loop raises nothing exactly when every chunk runs. Its dense arrays are then the scatter of all chunks, and `used_points` is the last chunk's value. |
| Evaluate.RunChunks | tsadar/utils/process/postprocess.py:50-123 | Allocates the zero arrays and runs the chunk loop. It returns without raising exactly when the pass succeeds: at least one chunk binds `used_points`, a loaded spectrum binds `sigmas`, and every chunk runs. |
| Evaluate.LiveNeverRises | tsadar/utils/process/postprocess.py:105-117 | `calc_sigma` never goes from false back to true: if it is set at chunk `b'`, it was set at every earlier chunk. |
| Evaluate.LiveCountMeaning | tsadar/utils/process/postprocess.py:105-117 | The chunks that write sigmas are exactly a prefix of the loop: those processed before the first failing Hessian. |
| Evaluate.LossesAfterScatter | tsadar/utils/process/postprocess.py:31-113 | The losses after `k` chunks are the zero array with the first `k` chunks' losses scattered at their indices. |
| Evaluate.FieldAfterScatter | tsadar/utils/process/postprocess.py:51-121 | Every `sqdevs`/`fits` array after `k` chunks is its zero array with those chunks' rows scattered at their indices. |
| Evaluate.SigmasAfterScatter | tsadar/utils/process/postprocess.py:57-117 | `sigmas` after `k` chunks is the zero array with only the writing chunks' sigma rows scattered. |
| Evaluate.OutcomeArrays | tsadar/utils/process/postprocess.py:123 | The returned arrays are the dense arrays after the last chunk. |
| Evaluate.LossLands | tsadar/utils/process/postprocess.py:113 | With distinct sample indices, `losses[inds[j]]` ends as chunk `b`'s `j`-th loss. |
| Evaluate.LossUntouched | tsadar/utils/process/postprocess.py:31-113 | A position no chunk names keeps its zero loss. |
| Evaluate.FieldLands | tsadar/utils/process/postprocess.py:114-121 | `sqdevs[..][inds[j]]` and `fits[..][inds[j]]` end as chunk `b`'s `j`-th row. |
| Evaluate.FieldUntouched | tsadar/utils/process/postprocess.py:51-121 | A row no chunk names stays zero. |
| Evaluate.SigmaLands | tsadar/utils/process/postprocess.py:116-117 | For a chunk processed while the flag holds, `sigmas[inds[j]]` ends as row `j` of its `get_sigmas`. |
| Evaluate.SigmaSkipped | tsadar/utils/process/postprocess.py:116-117 | A chunk processed after the flag fell leaves its sigma rows zero. |
| Evaluate.SigmaUntouched | tsadar/utils/process/postprocess.py:59-61 | A sigma row no chunk names stays zero. |
| Evaluate.HessianFlagMeaning | tsadar/utils/process/postprocess.py:105-111 | With the guarded call, the flag never rises, and a set flag falls exactly when the Hessian fails. |
| Evaluate.AsWrittenNeverClears | tsadar/utils/process/postprocess.py:105-111 | As written, whenever the call returns, the flag is unchanged. It raises exactly where the guarded version would clear the flag. |
| Evaluate.AsWrittenAborts | tsadar/utils/process/postprocess.py:106 | A failing Hessian while `calc_sigma` is set raises as written. The guarded version clears the flag instead. |
| Sigmas.CountParams | tsadar/utils/process/postprocess.py:143-149 | Building `sizes` succeeds exactly when every diagonal block exists (KeyError otherwise). Each pair's width is filed under `key + species`, a later pair overwriting an earlier one of the same name, and `actual_num_params` is the sum of the widths `sizes` then holds. |
| Sigmas.SumValues | tsadar/utils/process/postprocess.py:149 | The loop sums the values of `sizes` over all its keys. |
| Sigmas.SizesMembers | tsadar/utils/process/postprocess.py:143-147 | The names in `sizes` are exactly the `key + species` of the pairs, and each name holds the width of the last pair filed under it. |
| Sigmas.NamesOfMembers | tsadar/utils/process/postprocess.py:143-147 | A name is among those of the pairs exactly when some pair's `key + species` is that name. |
| Sigmas.NumActiveDistinct | tsadar/utils/process/postprocess.py:143-149 | When no two pairs share a `key + species`, `actual_num_params` is the sum of every diagonal block's width. |
| Sigmas.NamesCollide | tsadar/utils/process/postprocess.py:143-149 | Species `a` with key `bc` and species `ca` with key `b`, of widths 2 and 3, give `actual_num_params == 3`, not 5: the earlier width is overwritten. |
| Sigmas.FillRow | tsadar/utils/process/postprocess.py:155-162 | One pass of the inner loops succeeds exactly when row `k1` and every column fit in `temp` and every block of the row has an `[i, i]` entry. It sets `temp[k1, k2]` to that entry for each pair and leaves every other cell alone. |
| Sigmas.Assemble | tsadar/utils/process/postprocess.py:153-162 | Assembling sample `i`'s matrix succeeds exactly when every block has an `[i, i]` entry and the counters stay in range. It returns the assembled matrix. |
| Sigmas.AssembledAt | tsadar/utils/process/postprocess.py:153-162 | Entry `[k1, k2]` is the `[i, i]` entry of the `k1`-th/`k2`-th block pair in key order; rows and columns past the number of pairs are zero. |
| Sigmas.InvertAssembled | tsadar/utils/process/postprocess.py:177 | Assembly and `np.linalg.inv` succeed together exactly when the assembled matrix is accepted by `inv`. The result is the inverse, of the same size. |
| Sigmas.WriteSigmaRow | tsadar/utils/process/postprocess.py:180 | `sigmas[i, :] = ...` replaces row `i` with the signed roots of the inverse's diagonal and changes no other row. |
| Sigmas.SampleSigmas | tsadar/utils/process/postprocess.py:150-180 | The loop over `range(batch_size)` succeeds exactly when every sample's row does. The array is then those rows. |
| Sigmas.GetSigmas | tsadar/utils/process/postprocess.py:126-189 | `get_sigmas` returns without raising exactly when the specification's result exists, and returns it; its width is `actual_num_params` as `sizes` counts it. |
| Sigmas.SigmasShape | tsadar/utils/process/postprocess.py:143-180 | The result has `batch_size` rows of `actual_num_params` sigmas; row `i` is the signed roots of the diagonal of the inverse of sample `i`'s assembled matrix. |
| Sigmas.SigmaRowsShape | tsadar/utils/process/postprocess.py:150-180 | The rows exist for every sample, in sample order, each with `actual_num_params` entries. |
| Sigmas.SigmaRowsFail | tsadar/utils/process/postprocess.py:152-180 | When the loop over the first samples raises, a loop over more samples raises too. |
| Sigmas.SigmaSigns | tsadar/utils/process/postprocess.py:180 | Each sigma is negative exactly when the inverse's diagonal entry is, zero exactly when it is, and squares to that entry's magnitude. |
| Sigmas.SignedRootMeaning | tsadar/utils/process/postprocess.py:180 | `sign(d) * sqrt(abs(d))` is negative iff `d` is, zero iff `d` is, and squares to `abs(d)`. |
| Sigmas.OffDiagonalIgnored | tsadar/utils/process/postprocess.py:143-162 | Two Hessians with the same pairs, widths and `[i, i]` block entries give the same result. Changing any entry `[i, j]` with `i != j` changes nothing. |
| Refit.ChosenMembers | tsadar/utils/process/postprocess.py:228-234 | An index is selected exactly when it sits at a position whose loss, divided by `1.1 * (used_points - len(all_params))`, exceeds `refit_thresh`. With numpy's semantics a zero divisor selects exactly the positive losses. |
| Refit.NonZeroMembers | tsadar/utils/process/postprocess.py:234-236 | The refitted indices are the selected ones other than 0. Their count and the number of zeros make up the selection. |
| Refit.LoggedCountIncludesZero | tsadar/utils/process/postprocess.py:232-236 | The logged refit count is the selection's size, which counts index 0. When 0 is selected, it exceeds the number of refits performed. |
| Refit.SortedSamplesAligned | tsadar/utils/process/postprocess.py:228-234 | For sample indices that are a permutation of `0..n-1`, the sorted array holds `p` at position `p`. |
| Refit.RefitSetAligned | tsadar/utils/process/postprocess.py:228-236 | For such sample indices, the refitted samples are exactly the `i` with `0 < i < n` whose own reduced loss exceeds the threshold. |
| Refit.WarmStartRaises | tsadar/utils/process/postprocess.py:250-255 | The warm start raises nothing exactly when every (species, key) of the batch is configured and each active one has an entry to read. |
| Refit.WarmStartSets | tsadar/utils/process/postprocess.py:252-255 | After the warm start, every active parameter's `val` is entry `(i-1) % tbs` of its array. JAX clamps an index past the end. |
| Refit.WarmStartUntouched | tsadar/utils/process/postprocess.py:250-255 | The `val` of a parameter that is inactive or not in the batch is unchanged. |
| Refit.WarmStartStops | tsadar/utils/process/postprocess.py:250-255 | Once a lookup raises, the later entries change nothing. |
| Refit.WarmStartInto | tsadar/utils/process/postprocess.py:250-255 | The nested loops update `config`'s `val` entries as the warm start specifies and leave `batch_size` alone. |
| Refit.WarmSpecies | tsadar/utils/process/postprocess.py:251-255 | One species' inner loop continues the warm start over that species' keys. |
| Refit.WarmEntry | tsadar/utils/process/postprocess.py:252-255 | One key: raises KeyError for an unconfigured parameter. Otherwise it sets the active parameter's `val`, or raises when there is nothing to read. |
| Refit.WriteBackRaises | tsadar/utils/process/postprocess.py:272-278 | The write-back raises nothing exactly when batch `i // tbs` has every key of the result and every result array has an entry 0. |
| Refit.WriteBackSets | tsadar/utils/process/postprocess.py:272-278 | After the write-back, each result key's array in batch `i // tbs` is the old array with entry `i % tbs` replaced by the result's value. JAX drops an update past the end. |
| Refit.WriteBackUntouched | tsadar/utils/process/postprocess.py:272-278 | Every array of another batch, or of a key the result does not have, is unchanged. |
| Refit.WriteBackSame | tsadar/utils/process/postprocess.py:272-278 | The write-back changes at most entry `i % tbs` of the arrays of batch `i // tbs`, and keeps keys, orders and lengths. |
| Refit.WriteBackInto | tsadar/utils/process/postprocess.py:272-278 | The nested loops update `fitted_weights` as the write-back specifies. |
| Refit.WriteSpecies | tsadar/utils/process/postprocess.py:273-278 | One species' inner loop continues the write-back over that species' keys. |
| Refit.WriteEntry | tsadar/utils/process/postprocess.py:274-278 | One key: `.at[i % tbs].set(...)` on the array in batch `i // tbs`, or KeyError/IndexError. |
| Refit.RefitOneShape | tsadar/utils/process/postprocess.py:238-278 | Sample 0 changes nothing. Any other sample sets `batch_size` to 1 through the shallow copy. It changes the weights at most in entry `i % tbs` of batch `i // tbs`, and every other batch and offset is untouched. |
| Refit.RefitOneWarm | tsadar/utils/process/postprocess.py:248-256 | The warm start reads batch `(i-1) // tbs` at offset `(i-1) % tbs`, and the configured values it leaves are those entries. |
| Refit.RefitOneWrite | tsadar/utils/process/postprocess.py:270-278 | The write-back goes to batch `i // tbs` at offset `i % tbs`, with the optimizer's result for every key it returns. |
| Refit.RefitOneBack | tsadar/utils/process/postprocess.py:270-278 | The weights after one refit are the write-back of the optimizer's result. |
| Refit.RefitOneKeepsBatch | tsadar/utils/process/postprocess.py:272-278 | A batch other than `i // tbs` is unchanged by refitting `i`. |
| Refit.RefitAllShape | tsadar/utils/process/postprocess.py:229-287 | The loop leaves every batch that no refitted index falls in unchanged. A selection with only zeros changes nothing. Any refit leaves `batch_size == 1` until line 287. |
| Refit.RefitAllFrame | tsadar/utils/process/postprocess.py:234-285 | Across the whole loop, whether or not it raises, every entry of every array keeps its value unless it is entry `i % tbs` of batch `i // tbs` for some selected `i != 0`. Batches, species, keys and array lengths are kept. |
| Refit.RefitAllKeepsInactive | tsadar/utils/process/postprocess.py:248-256 | Configured values of inactive parameters are never changed. |
| Refit.RefitRestores | tsadar/utils/process/postprocess.py:229-287 | After a loop that raises nothing, `batch_size` is its original value, while the overwritten `val` entries stay overwritten. After an exception, `batch_size` stays 1. |
| Refit.RefitAllStops | tsadar/utils/process/postprocess.py:234-285 | Once a refit raises, the later selected samples are not processed. |
| Refit.RefitSample | tsadar/utils/process/postprocess.py:238-278 | The loop body for a sample `i != 0` changes `config` and `fitted_weights` exactly as one refit step specifies. |
| Refit.RefitLoop | tsadar/utils/process/postprocess.py:234-285 | The loop over the selection changes `config` and `fitted_weights` exactly as the refit of all selected samples specifies, stopping at the first exception. |
| Refit.RefitBadFits | tsadar/utils/process/postprocess.py:220-287 | Sorts `batch_indices` in place. If the recalculation raises, `config` and the weights are unchanged. Otherwise the final state and the exception are those of refitting the selected samples, followed by the restore. |

## Left out

- The full-batch ("angular_full") branch of `recalculate_with_chosen_weights` (lines 64-91) is not modelled, including its reshape of the parameters (lines 77-83) and its Hessian computation. Only the chunked branch is.
- `postprocess`, `process_data` and `process_angular_data` are reporting only. This also covers `mlflow` logging, the temporary directories, plotting, the `print` calls and timing.
- `get_unnormed_params` is the identity in this model: the fitted weights arrive unnormalised. Its rescaling is floating-point work inside the loss function.
- `array_loss`, `h_loss_wrt_params`, the `LossFunction` constructor and `scipy.optimize.minimize` are uninterpreted functions. Only the shapes and slots of their results matter, and the optimizer is assumed not to raise. The batch dictionaries they receive (lines 94-101 and 238-245) are represented by the chunk's indices and the sample index.
- `np.linalg.inv` and `np.sqrt` are abstract. Floating-point rounding is not modelled: reals are exact. The only float special case written out is the division by zero in the reduced loss (`Refit.Exceeds`).
- numpy negative indices and broadcasting are not modelled. Every sample index is a natural number, and an assignment's values must have exactly the slot's shape.
- Sharing between the arrays of different batches of `fitted_weights` is not modelled: every `.at[].set` builds a new array, so none is updated in place.
- Evaluate.EvalChunk: when several conditions of one chunk fail, the model raises for the first violated one in a fixed order. Which exception kind then wins in Python is not pinned down. Whether any exception is raised, and what a run that raises nothing returns, are exact.
- Evaluate.EvalChunk: the unguarded Hessian call at line 106 is not part of the chunk model. The chunk step, the chunk loop and `Recalculate.RecalculateWithChosenWeights` follow the intended flag logic of lines 107-111; the code as written is modelled separately by `Evaluate.AsWrittenAborts` (see "## Findings").
- Evaluate.Dense.Write: the dense arrays are local to `recalculate_with_chosen_weights` and are discarded when it raises. The model therefore decides every exception of a chunk before writing its results.
- Refit.RefitBadFits: the loss arrays it reads are those returned by `recalculate_with_chosen_weights` with `calc_sigma` false. Their values beyond shape and position are those of the abstract forward model.

## Findings

| source | as written | input that shows it | evidently intended | confidence | as-written member | corrected member |
|---|---|---|---|---|---|---|
| tsadar/utils/process/postprocess.py:105-111 | `h_loss_wrt_params` is called once unguarded at line 106 and again inside the `try` at line 108. A failing Hessian therefore raises at line 106, and the `except` that clears `calc_sigma` can never run. | A chunk whose Hessian computation raises while `calc_sigma` is true: the whole recalculation aborts. | A failing Hessian clears `calc_sigma`, the remaining chunks run, and no further sigmas are written. | not executed | Evaluate.AsWrittenAborts | Evaluate.HessianFlagMeaning |
