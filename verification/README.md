# Panoptic core, modelled in Dafny

Panoptic is a tool for browsing and annotating large image collections. Images are imported from folders into a
SQLite catalog. A background queue hashes each image and computes its feature vector. Users attach properties and
hierarchical tags to images and cluster similar images together. The web front end filters the catalog with
operators that depend on each property's type.

This project models the sequential, decidable logic of that core:

- **`TaskQueue`** (`taskqueue.dfy`) is the `ProcessQueue` state machine with one worker.
  - Starting workers is idempotent.
  - `add_task` appends at the back of the FIFO.
  - The loop `RunWorker` hands results to the done-callback in submission order. It logs a task that raises and
    carries on.
  - The base class's `_process_task` always raises.
  - `ImportImageQueue._process_task` derives the name and extension from the path. It returns an image already
    catalogued, and otherwise inserts a new row whose url is `/images/<path>`.
- **`Similarity`** (`similarity.dfy`) is `make_clusters`. The requested method is overridden with `"faiss"`.
  - The faiss helper returns one label and one distance per vector.
  - Boolean-mask selection keeps the input order inside each cluster.
  - Each cluster is scored by its mean distance, and the clusters are sorted with Python's tuple order.
  - `get_similar_images` refuses to answer before a tree is built.
  - **`Ordering`** (`ordering.dfy`) supplies Python's order on reals, strings and lists, and `sorted`.
- **`Catalog`** (`catalog.dfy`) holds the in-memory tables and the queries of `panoptic_back/panoptic/core/db.py`:
  - images, property values, computed values, properties and tags;
  - the filter precedence of `get_images` and `get_property_values`;
  - the upsert of `set_property_values`;
  - the last-row-wins map of `get_sha1_ahashs`;
  - `auto_dict`.
- **`Ancestry`** (`ancestry.dfy`) is `get_tag_ancestors` and `tag_in_ancestors`. The walk follows first non-zero
  parents and has no cycle guard; Python's recursion limit becomes a fuel budget.
- **`TagService`** (`tagservice.dfy`) covers `create_tag`, `update_tag`, `delete_tag` and `delete_tag_parent` of
  `panoptic_api/core/__init__.py`, including the cascading delete and the removal of the tag from property values.
  - Two defects of the source are modelled as written, next to corrected definitions (see Findings).
  - The rest of the model uses the corrected definitions.
- **`ApiCatalog`** (`apicatalog.dfy`) is the rest of that API module: `_preprocess_image`, `add_image_to_db`,
  `get_properties`, `update_property` and `get_tags`.
- **`Filters`** (`filters.dfy`) holds the front-end tables of `panoptic_front/src/data/models.ts`:
  - the operators each property type offers;
  - which operators take an input;
  - each type's default value;
  - the empty filter group and tab state.
- **Shared modules:**
  - `Results` (`results.dfy`): `Option`, `Result` and the error cases. Every exception or HTTP error the source
    raises becomes an `Err`.
  - `Seqs` (`seqs.dfy`): sequence helpers and Python's `list.remove`, set-of-list and dict-building.
  - `Paths` (`paths.dfy`): `split(sep)[-1]` and the `/images/` url.

Tables are sequences of rows in insertion (rowid) order. Primary keys are stated as a `UniqueIds` precondition
where the code relies on them. Calls into libraries and processes are parameters of the model:
- the decoding and hashing of an image file;
- the faiss nearest-centroid search;
- the similarity tree's query;
- the task processor of the queue.

## Model

| member | source | states |
|---|---|---|
| TaskQueue.NewQueue | panoptic_back/panoptic/core/process_queue.py:21-26 | a new queue has an empty FIFO, no workers and no callback |
| TaskQueue.StartWorkers | panoptic_back/panoptic/core/process_queue.py:28-32 | with workers already running nothing changes; otherwise exactly the requested number start; the FIFO and callback are untouched |
| TaskQueue.StartWorkersIdempotent | panoptic_back/panoptic/core/process_queue.py:28-32 | a second `start_workers` after one that started workers changes nothing |
| TaskQueue.AddTask | panoptic_back/panoptic/core/process_queue.py:34-36 | afterwards at least one worker runs (existing workers are kept) and the task is appended at the back of the FIFO |
| TaskQueue.AddTasksInOrder | panoptic_back/panoptic/core/process_queue.py:34-36 | tasks submitted one after another sit in the FIFO in submission order, behind those already queued |
| TaskQueue.Trace | panoptic_back/panoptic/core/process_queue.py:38-48 | one worker yields exactly one outcome per task drained |
| TaskQueue.Delivered | panoptic_back/panoptic/core/process_queue.py:43-44 | without a callback no result is delivered; never more results than tasks |
| TaskQueue.DeliveredAppend | panoptic_back/panoptic/core/process_queue.py:38-48 | deliveries and logs of two task batches are those of the first batch followed by those of the second |
| TaskQueue.TraceAppend | panoptic_back/panoptic/core/process_queue.py:38-48 | draining `a + b` is draining `a` and then `b` from the state `a` left: earlier submissions are handled first |
| TaskQueue.RunWorker | panoptic_back/panoptic/core/process_queue.py:38-48 | the loop empties the FIFO; its final state, callback deliveries and logged exceptions are those of processing the tasks one by one in FIFO order |
| TaskQueue.FailureDoesNotStopLater | panoptic_back/panoptic/core/process_queue.py:40-48 | a task that raises delivers nothing, is logged, and the tasks after it are handled exactly as if it had not been submitted |
| TaskQueue.EachTaskHandledOnce | panoptic_back/panoptic/core/process_queue.py:40-48 | with a callback set, deliveries plus logged failures number exactly the tasks |
| TaskQueue.CallbackOrderIsSubmissionOrder | panoptic_back/panoptic/core/process_queue.py:38-44 | when every task succeeds the callback receives every result, the i-th result from the i-th task |
| TaskQueue.BaseProcess | panoptic_back/panoptic/core/process_queue.py:50-51 | the base `_process_task` raises for every task and changes no state |
| TaskQueue.BaseQueueOnlyLogs | panoptic_back/panoptic/core/process_queue.py:38-51 | on a bare queue nothing reaches the callback, every task is logged, and the state is unchanged |
| TaskQueue.ProcessImport | panoptic_back/panoptic/core/process_queue.py:61-75 | an unreadable file raises and leaves the table alone; otherwise the table is unchanged or grows by exactly the returned image |
| TaskQueue.ImportOfKnownFile | panoptic_back/panoptic/core/process_queue.py:63-69 | an image already catalogued under the folder, name and extension is returned and nothing is inserted |
| TaskQueue.ImportOfNewFile | panoptic_back/panoptic/core/process_queue.py:63-75 | a new readable file becomes one row at the end, with a fresh id, the path's last segment as name, the text after its last dot as extension, the url `/images/<path>`, and the extracted sha1 and size |
| TaskQueue.ImportIsIdempotent | panoptic_back/panoptic/core/process_queue.py:67-69 | importing the same file again changes nothing and returns the same image |
| TaskQueue.DuplicateImportInsertsOnce | panoptic_back/panoptic/core/process_queue.py:61-75 | queuing the same import twice inserts at most one row |
| Paths.LastSegment | panoptic_back/panoptic/core/process_queue.py:63-64 | `s.split(sep)[-1]` is the suffix of `s` after its last separator, the whole string when there is none, and holds no separator |
| Paths.FileName | panoptic_back/panoptic/core/process_queue.py:63 | the file name is a separator-free suffix of the path, preceded by a separator unless it is the whole path, and is the whole path exactly when the path has no separator |
| Paths.Extension | panoptic_back/panoptic/core/process_queue.py:64 | the extension is a dot-free suffix of the name, preceded by a dot unless it is the whole name, and is the whole name exactly when the name has no dot |
| Paths.ImageUrl | panoptic_back/panoptic/core/process_queue.py:84 | the url is `/images/` followed by the path, character for character |
| Paths.LastSegmentOfJoin | panoptic_back/panoptic/core/process_queue.py:63 | splitting `folder + sep + file` recovers the file name when it holds no separator |
| Paths.ImageUrlInjective | panoptic_back/panoptic/core/process_queue.py:84 | different paths get different urls |
| Similarity.ParseMethod | panoptic_back/panoptic/compute/similarity.py:47-57 | only `"faiss"` selects the faiss branch; names other than the four listed fall to the `other` case |
| Similarity.Search | panoptic_back/panoptic/compute/similarity.py:87 | the search yields one row per query vector holding its nearest centroid's label and distance |
| Similarity.FlattenColumn | panoptic_back/panoptic/compute/similarity.py:88 | flattening rows of width one keeps one entry per row, in row order |
| Similarity.FaissClusters | panoptic_back/panoptic/compute/similarity.py:83-88 | `_make_clusters_faiss` returns exactly one label and one distance per input vector, the k-th of each from the k-th vector |
| Similarity.SelectNonEmpty | panoptic_back/panoptic/compute/similarity.py:58-59 | a label's mask selects something exactly when the label occurs |
| Similarity.SelectAtRank | panoptic_back/panoptic/compute/similarity.py:59 | the entry at position p lies in its label's cluster at the number of earlier entries with that label |
| Similarity.RankIncreases | panoptic_back/panoptic/compute/similarity.py:59 | a later entry of the same label is placed strictly later in the cluster |
| Similarity.ClusterKeepsInputOrder | panoptic_back/panoptic/compute/similarity.py:59 | two members of one cluster appear in the cluster in their input order |
| Similarity.Mean | panoptic_back/panoptic/compute/similarity.py:64 | the mean times the count is the sum |
| Similarity.MeanDistances | panoptic_back/panoptic/compute/similarity.py:63-64 | the k-th score is the mean of the distances selected by the k-th label |
| Similarity.Zip | panoptic_back/panoptic/compute/similarity.py:69 | `zip` pairs entries position by position and stops at the shorter list |
| Similarity.Assemble | panoptic_back/panoptic/compute/similarity.py:58-70 | as many clusters as scores; without distances both results are empty |
| Similarity.MembersPartition | panoptic_back/panoptic/compute/similarity.py:58-65 | gathering the members of every label, each listed once, gives back the input sha1s as a multiset |
| Similarity.AssemblePartitions | panoptic_back/panoptic/compute/similarity.py:58-70 | after sorting, every input sha1 lies in exactly one cluster: the flattened clusters are the input as a multiset |
| Similarity.AssembleCountsAndSorts | panoptic_back/panoptic/compute/similarity.py:58-70 | there is one cluster per distinct label, and the returned scores are in ascending order |
| Similarity.AssembleAligned | panoptic_back/panoptic/compute/similarity.py:58-70 | the i-th cluster and the i-th score come from one label: its members in input order, and the mean of their distances |
| Similarity.Dispatch | panoptic_back/panoptic/compute/similarity.py:47-70 | an unknown method returns `[[]]`; the branches without distances give empty clusters and scores |
| Similarity.MakeClusters | panoptic_back/panoptic/compute/similarity.py:38-70 | an empty image list fails at the unpacking; otherwise clusters and scores come out with equal length |
| Similarity.MakeClustersIgnoresMethod | panoptic_back/panoptic/compute/similarity.py:46-55 | whatever method is requested, the result is that of the faiss branch |
| Similarity.MakeClustersPartitions | panoptic_back/panoptic/compute/similarity.py:58-70 | every image's sha1 lands in exactly one cluster, there is one cluster per distinct centroid, and the scores ascend |
| Similarity.MakeClustersAligned | panoptic_back/panoptic/compute/similarity.py:58-70 | each output cluster holds, in input order, the images nearest one centroid, and its score is their mean distance to it |
| Similarity.GetSimilarImages | panoptic_back/panoptic/compute/similarity.py:31-35 | fails exactly when no tree is built; otherwise returns the tree's answer |
| Ordering.StrLeTotal | panoptic_back/panoptic/compute/similarity.py:69 | Python's string order is total |
| Ordering.ListLeTotal | panoptic_back/panoptic/compute/similarity.py:69 | the order on lists of strings is total |
| Ordering.SortPairs | panoptic_back/panoptic/compute/similarity.py:69 | `sorted(zip(...))` returns a sorted permutation of the pairs |
| Ordering.SortReals | panoptic_back/panoptic/compute/similarity.py:70 | `sorted(res_distances)` returns a sorted permutation of the scores |
| Ordering.SortedScoresAligned | panoptic_back/panoptic/compute/similarity.py:69-70 | the scores of the sorted pairs are the sorted scores, so the two returned lists line up |
| Ordering.SortPairsMembers | panoptic_back/panoptic/compute/similarity.py:69 | sorting moves clusters but keeps all their members |
| Seqs.RemoveFirst | panoptic_api/core/__init__.py:191 | `list.remove` succeeds exactly when the value is present, removing one occurrence; otherwise it raises |
| Seqs.RemoveFirstSplits | panoptic_api/core/__init__.py:191 | a successful `list.remove` deletes the first occurrence of the value and keeps the others in order |
| Seqs.Dedup | panoptic_api/core/__init__.py:152 | `list({...})` keeps exactly the same elements, without duplicates |
| Seqs.ToMap | panoptic_back/panoptic/core/db.py:421 | a dict comprehension has exactly the listed keys, and the last pair of a key sets its value |
| Catalog.HasImageFile | panoptic_back/panoptic/core/db.py:75-84 | finds nothing exactly when no row has the folder, name and extension; otherwise returns such a row |
| Catalog.HasImageFileAppend | panoptic_back/panoptic/core/db.py:75-84 | when no row matched, after an insert the lookup finds the new row exactly when it matches |
| Catalog.AddImage | panoptic_back/panoptic/core/db.py:41-63 | inserts one row at the end with a fresh positive id and the given fields, and returns it |
| Catalog.GetImages | panoptic_back/panoptic/core/db.py:105-114 | an empty id list selects every image; otherwise exactly the images with a listed id |
| Catalog.GetPropertyValues | panoptic_back/panoptic/core/db.py:117-131 | selects exactly the rows passing the property filter and, when image ids are given, the image filter, else the sha1 filter; an empty filter restricts nothing |
| Catalog.ImageIdsOverrideSha1s | panoptic_back/panoptic/core/db.py:124-127 | with image ids given, the sha1 list has no effect |
| Catalog.NoFilterSelectsAll | panoptic_back/panoptic/core/db.py:117-131 | with no filter every row is returned in order |
| Catalog.Upsert | panoptic_back/panoptic/core/db.py:392-394 | after the upsert its key holds the new value and every other key holds what it held |
| Catalog.ApplyUpserts | panoptic_back/panoptic/core/db.py:391-397 | after a batch of upserts a key holds its last write in the batch, or its old value when unwritten |
| Catalog.ValueUpserts | panoptic_back/panoptic/core/db.py:397 | one row `(property_id, image_id, '', value)` per image id, in order |
| Catalog.SetPropertyValues | panoptic_back/panoptic/core/db.py:391-397 | every listed image holds the value under the empty sha1; every other key is unchanged |
| Catalog.LastWriteOfUpserts | panoptic_back/panoptic/core/db.py:391-397 | in the batch, a key's last write is the value when the key is the property, a listed image and the empty sha1, and there is none otherwise |
| Catalog.GetSha1Ahashs | panoptic_back/panoptic/core/db.py:414-422 | the map's keys are exactly the sha1s of selected rows; an empty filter selects all |
| Catalog.LaterAhashWins | panoptic_back/panoptic/core/db.py:417-421 | for any sha1 filter, one more selected row at the end sets its sha1 to its ahash, overriding an earlier row; a row the filter skips changes nothing |
| Catalog.FilterSnoc | panoptic_back/panoptic/core/db.py:417-420 | filtering rows with one more row at the end filters the old rows, then keeps that row exactly when it passes |
| Catalog.AutoDict | panoptic_back/panoptic/core/db.py:223-224 | keys are the columns paired with a value; with distinct columns the map has the length of the shorter list and maps each column to its value |
| Catalog.GetPropertyById | panoptic_back/panoptic/core/db.py:186-197 | finds nothing exactly when no property has the id; otherwise a property with that id |
| Catalog.UpdateProperty | panoptic_back/panoptic/core/db.py:350-352 | the row with the property's id is replaced, every other row is kept |
| Catalog.GetTagById | panoptic_back/panoptic/core/db.py:237-243 | finds a row exactly when the id is present, and that row has the id |
| Catalog.GetTagByIdOfRow | panoptic_back/panoptic/core/db.py:237-243 | with unique ids, looking up a row's id returns that row |
| Catalog.GetTag | panoptic_back/panoptic/core/db.py:200-206 | finds nothing exactly when no row has the property and value; otherwise such a row |
| Catalog.AddTag | panoptic_back/panoptic/core/db.py:22-25 | appends one row with a fresh positive id, and unique ids stay unique |
| Catalog.UpdateTag | panoptic_back/panoptic/core/db.py:28-30 | the row with the tag's id gets its parents, value and color; every other row and the set of ids are unchanged |
| Catalog.DeleteTagById | panoptic_back/panoptic/core/db.py:246-249 | the id is no longer present, the table shrinks when it was, and every other id looks up as before |
| Catalog.GetTagsByParentId | panoptic_back/panoptic/core/db.py:252-255 | returns only rows listing the parent, and nothing exactly when no row lists it; Catalog.ChildIdsAreJoinIds gives the multiplicity |
| Catalog.ChildIds | panoptic_back/panoptic/core/db.py:252-255 | the join returns a child once per occurrence of the parent among its parents |
| Catalog.ChildIdsAreJoinIds | panoptic_back/panoptic/core/db.py:252-255 | the child ids the deletion cascade uses are exactly the ids of the joined rows, in order and once per occurrence of the parent |
| Catalog.GetTags | panoptic_back/panoptic/core/db.py:227-234 | without a property every tag; otherwise exactly the tags of that property |
| Ancestry.FirstNonZero | panoptic_back/panoptic/core/db.py:216-220 | the walk moves to a non-zero parent, and to none exactly when every parent is 0 |
| Ancestry.GetTagAncestors | panoptic_back/panoptic/core/db.py:209-220 | a successful walk returns a set containing 0, the accumulator and the tag's own parents |
| Ancestry.WalkEndsInAncestors | panoptic_back/panoptic/core/db.py:209-220 | when the walk of first non-zero parents reaches a `[0]`-tag within the budget, the result is exactly the accumulator plus the parents of every tag along the walk |
| Ancestry.AncestorsAlongWalk | panoptic_back/panoptic/core/db.py:209-220 | a successful result is exactly that set, for a walk that ends at a `[0]`-tag within the budget |
| Ancestry.TagInAncestorsAlongWalk | panoptic_back/panoptic/core/db.py:258-266 | for a non-zero parent whose walk ends, the check answers whether the tag is listed as a parent somewhere along that walk |
| Ancestry.AncestorsAccumulate | panoptic_back/panoptic/core/db.py:210-215 | the accumulator only adds itself to the result |
| Ancestry.AncestorsFuelMonotone | panoptic_back/panoptic/core/db.py:209-220 | once the walk ends, a larger recursion budget gives the same answer |
| Ancestry.CycleExhaustsRecursion | panoptic_back/panoptic/core/db.py:209-220 | with no cycle guard, from a tag on a cycle of first parents the walk never ends, whatever the budget |
| Ancestry.TagInAncestors | panoptic_back/panoptic/core/db.py:258-266 | false for a zero parent id; a missing parent fails; otherwise whether the tag id is among the parent's ancestors |
| Ancestry.DirectParentDetected | panoptic_back/panoptic/core/db.py:258-266 | a tag listed among the proposed parent's own parents is always reported |
| TagService.CreateTag | panoptic_api/core/__init__.py:147-158 | the returned tag is the stored row with its id, and the requested parent is among its parents |
| TagService.CreateTagInserts | panoptic_api/core/__init__.py:155-158 | a new tag is appended with parents exactly `[parent_id]` and a fresh id; no other row changes |
| TagService.CreateTagExisting | panoptic_api/core/__init__.py:149-154 | re-creating a tag fails exactly when it is among the parent's ancestors; otherwise its parents become the old ones plus the parent, without duplicates and losing none, and no other row changes |
| TagService.UpdateTagApi | panoptic_api/core/__init__.py:161-170 | a successful update returns the tag with the requested id |
| TagService.UpdateTagApiEffect | panoptic_api/core/__init__.py:161-170 | a missing id is refused; for an existing id the update is refused as an ancestor exactly when the check of the payload's parent says true, succeeds exactly when it says false, and fails with the check's own error otherwise; the payload's value and color overwrite the row, the parents and every other row are kept |
| TagService.StripTag | panoptic_api/core/__init__.py:181-185 | every tag-list value loses exactly one occurrence of the id when it holds it; all other values and keys are unchanged |
| TagService.StripTagRemovesAll | panoptic_api/core/__init__.py:183-184 | a value listing the id at most once no longer lists it |
| TagService.DeleteTag | panoptic_api/core/__init__.py:173-186 | the deleted tag comes first in the returned ids, each deleted id once; deleted tags are gone; survivors lose only parents that were deleted and no longer reference them; only tags left without a surviving parent were deleted; values lose only deleted ids |
| TagService.DeleteChildren | panoptic_api/core/__init__.py:179 | detaching every child of a deleted tag leaves no row referencing it, trimming or deleting only |
| TagService.DeleteTagParent | panoptic_api/core/__init__.py:189-196 | the child loses one reference to the parent; a missing child fails; a child left with no parents is deleted with its own cascade |
| TagService.DeleteLeaf | panoptic_api/core/__init__.py:173-186 | deleting a tag without children removes its row, strips its id from values, and reports only its id |
| TagService.OnlyListsMatch | panoptic_back/panoptic/core/db.py:361-364 | only a tag-list value can match the `[%id%]` pattern |
| TagService.ListedValueMatches | panoptic_back/panoptic/core/db.py:361-364 | every value that lists the id matches the pattern, so no tagged value is missed |
| TagService.StripRowAsWritten | panoptic_api/core/__init__.py:183-185 | `remove` on a matched value raises exactly when the list does not hold the id; otherwise the row is stripped as in the corrected clean-up |
| TagService.StripTagAsWritten | panoptic_api/core/__init__.py:181-185 | the cleanup raises exactly when the pattern matches a value that does not list the id; otherwise it equals the corrected strip |
| TagService.DeleteTagAsWritten | panoptic_api/core/__init__.py:173-186 | a successful as-written deletion reports only the tag itself and removes only its row |
| TagService.AsWrittenFailsOnChildren | panoptic_api/core/__init__.py:177-179 | as written, deleting any tag that has a child fails |
| TagService.AsWrittenAgrees | panoptic_api/core/__init__.py:173-186 | for a tag with no children and no false pattern match, the as-written and corrected deletions agree |
| TagService.ChildBindingCounterexample | panoptic_api/core/__init__.py:179 | deleting "animal" with child "cat" fails as written, while the corrected cascade deletes both |
| TagService.LikePatternCounterexample | panoptic_back/panoptic/core/db.py:361-364 | deleting tag 1 fails as written because `[11]` matches `[%1%]`; the corrected cleanup leaves the value alone |
| ApiCatalog.PreprocessImage | panoptic_api/core/__init__.py:80-92 | the name is the last separator-delimited segment of the path, the extension is the last dot-delimited segment of the name, the url is `/images/` then the path, and the decoded size and sha1 are passed through |
| ApiCatalog.PreprocessSplitsPath | panoptic_api/core/__init__.py:82-83 | for `folder/stem.ext` the name is `stem.ext` and the extension `ext` |
| ApiCatalog.AddImageToDb | panoptic_api/core/__init__.py:111-123 | afterwards the sha1 maps to the returned image, the sha1s are the old ones plus it, and other images are untouched |
| ApiCatalog.AddImageNew | panoptic_api/core/__init__.py:120-122 | a new sha1 gets `paths == [file_path]` |
| ApiCatalog.AddImageKnown | panoptic_api/core/__init__.py:114-118 | a known sha1's paths gain the file path only when absent, stay duplicate-free and lose nothing |
| ApiCatalog.AddImageKeepsPathsDistinct | panoptic_api/core/__init__.py:114-122 | duplicate-free path lists stay duplicate-free |
| ApiCatalog.AddImageIdempotent | panoptic_api/core/__init__.py:114-118 | adding the same file twice is adding it once |
| ApiCatalog.GetPropertiesMap | panoptic_api/core/__init__.py:37-39 | the keys are exactly the property ids, each mapped to a property with that id |
| ApiCatalog.PropertiesMapHoldsEvery | panoptic_api/core/__init__.py:37-39 | with unique ids every property is in the map under its id |
| ApiCatalog.UpdatePropertyApi | panoptic_api/core/__init__.py:28-34 | a missing property is refused; otherwise the existing property is returned with the new name |
| ApiCatalog.UpdatePropertyApiEffect | panoptic_api/core/__init__.py:28-34 | the stored property reads back as the returned one, with the new name and the old type; other ids read as before |
| ApiCatalog.UpdatedLookup | panoptic_back/panoptic/core/db.py:350-352 | after the update, the updated id finds the new property if it existed before, and other ids find what they found before |
| ApiCatalog.GetTagsApi | panoptic_api/core/__init__.py:199-206 | with a property given, only that property appears as a key |
| ApiCatalog.GroupKeys | panoptic_api/core/__init__.py:202-205 | the keys are exactly the tags' property ids; a (property, id) entry exists exactly when some tag has both, and it is such a tag |
| ApiCatalog.GroupHoldsEvery | panoptic_api/core/__init__.py:202-205 | with unique ids every tag is nested under its own property and its own id |
| ApiCatalog.GetTagsApiHoldsEvery | panoptic_api/core/__init__.py:199-206 | every tag of the requested property is present under its property and id: none is lost |
| ApiCatalog.FilteredUnique | panoptic_back/panoptic/core/db.py:227-234 | filtering tags by property keeps ids unique |
| Filters.ParseType | panoptic_front/src/data/models.ts:3-18 | a recognised string is the value of the type it names |
| Filters.ParseTypeName | panoptic_front/src/data/models.ts:3-18 | each type's string value is recognised as that type |
| Filters.ParseOperator | panoptic_front/src/data/models.ts:140-159 | a recognised string is the value of the operator it names |
| Filters.ParseOperatorName | panoptic_front/src/data/models.ts:140-159 | operator values are distinct: each parses back to its operator |
| Filters.AvailableOperators | panoptic_front/src/data/models.ts:186-214 | no menu lists an operator twice, and none offers `and`, `or` or `contains` |
| Filters.PresenceTests | panoptic_front/src/data/models.ts:186-214 | `isSet` and `notSet` are offered exactly for the listed types other than checkbox and the two hashes |
| Filters.TruthTests | panoptic_front/src/data/models.ts:186-214 | `isTrue` and `isFalse` are offered exactly for checkbox |
| Filters.FixedMenus | panoptic_front/src/data/models.ts:186-214 | checkbox offers exactly `[isTrue, isFalse]`, the hashes exactly `[equal, equalNot]`, and only an unrecognised type offers nothing |
| Filters.OperatorHasInput | panoptic_front/src/data/models.ts:241-259 | true exactly for the operators other than `isSet`, `notSet`, `isTrue`, `isFalse`, `and` and `or` |
| Filters.MenuInputs | panoptic_front/src/data/models.ts:186-259 | on any menu an operator asks for a value unless it is a presence or truth test |
| Filters.PropertyDefault | panoptic_front/src/data/models.ts:216-239 | the default is boolean exactly for checkbox and then false, a number exactly for number and then 0, a list exactly for the two tag types and then empty |
| Filters.DefaultFitsOperators | panoptic_front/src/data/models.ts:186-239 | the default is a boolean exactly for the types offering `isTrue`, a list exactly for those offering `containsNot`, a number only where `lower` is offered; number defaults to 0 and date, which also offers `lower`, to the empty string; color defaults to `#aaaaaa`, other text types to the empty string |
| Filters.BuildFilterGroup | panoptic_front/src/data/models.ts:327-334 | the new group is a well-formed group joined by `and`, at depth 0, with no filters |
| Filters.BuildTabState | panoptic_front/src/data/models.ts:313-325 | a tab named `Tab` in grid display with image size 100, the empty filter group, and empty lists and maps |
| Filters.AddFilterKeepsGroupWellFormed | panoptic_front/src/data/models.ts:179-184 | adding a filter keeps a well-formed group well-formed |

## Left out

- Asyncio scheduling, several concurrent workers and the process pool are left out. The queue is modelled with one
  worker draining the FIFO. The loop waiting forever on an empty queue is where `RunWorker` stops.
- Image decoding, SHA-1 hashing, thumbnails, `to_average_hash` and `to_vector` are left out. Their results are
  parameters (`extract`, `Decoded`).
- The faiss k-means, the sklearn methods and `np.mean` of query vectors are left out: they are floating-point
  library code. Labels and distances come from a `nearest` function, and the tree's query is a parameter. The kmeans,
  dbscan and meanshift branches are unreachable after the override, so they are modelled only by their missing
  distances.
- Loading and pickling the similarity tree and the global `SIMILARITY_TREE` are left out. They are file I/O and
  process state; the tree is an `Option` parameter.
- SQL execution, pypika query building, JSON decoding and the table bootstrap are left out. Tables are sequences in
  rowid order. The primary keys of tags and properties are `UniqueIds`-style preconditions.
- `panoptic_api.core.db` is not part of this model. The API functions run on the corresponding queries of
  `panoptic_back/panoptic/core/db.py`:
  - `get_image_properties_with_tag` is the LIKE query of `get_property_values_with_tag`;
  - `update_image_property` writes a value row back under its own key;
  - the API's `add_tag` stores no color.
- JSON text is not escaped: `json.dumps` of a string is modelled as the string in quotes. Python sets are modelled
  by keeping first occurrences; set order is unspecified in Python and is not observed by any property here.
- Partial writes are not modelled. When the source raises half-way through `delete_tag`, the database keeps the
  writes done so far. An `Err` result here carries no database.
- HTTP routes, the front-end API client and pydantic payload schemas are left out. `TagUpdate` holds the fields of
  the update payload, with unset ones as `None`.
- Ancestry.GetTagAncestors: Python's recursion limit is a `fuel` budget. Running out of fuel is `RecursionLimit`.
  Its own contract gives lower bounds only; the exact set is stated by `Ancestry.AncestorsAlongWalk`.
- TagService.UpdateTagApi: the payload's `parent_id` is not a column of a tag, so the copy cannot change the parents.
  The model keeps them; only value and color are written. Its own contract states the success case only; the error
  cases and the written fields are stated by `TagService.UpdateTagApiEffect`.
- TagService.DeleteTag: requires unique tag ids (the primary key). The returned id list covers the corrected cascade
  only.
- Ancestry.TagInAncestors: it does not state that a tag's ancestor set excludes the tag itself. This fails when a
  later parent of the chain points back to it.
- ApiCatalog.PreprocessSplitsPath: does not restate the url, which `ApiCatalog.PreprocessImage` already states for
  every path.
- Paths.FileName: the separator is fixed to `/`, `os.sep` on a POSIX host. On Windows `os.sep` is a backslash, and paths
  split there are not modelled.
- Similarity.MakeClusters: the `nb_clusters` argument (6 by default) is dropped, because the `nearest` parameter
  stands for the whole faiss step. So faiss's own failures are not modelled: vectors of unequal length, or fewer
  vectors than clusters. Means are exact rationals, not `float32` sums. The model fails only on an empty image list.
- TaskQueue.RunWorker: the done callback is assumed not to raise. In the source a callback that raises inside the
  `try` is counted both as delivered and as a logged failure.
- TaskQueue.EachTaskHandledOnce: the done callback is assumed not to raise, for the same reason. A raising callback
  would give one delivery plus one logged failure for a single task.
- Similarity.Mean: numpy's NaN mean of an empty list is not modelled. A cluster always has a member.

## Findings

| source | as written | input that shows it | evidently intended | confidence | as-written member | corrected member |
|---|---|---|---|---|---|---|
| panoptic_api/core/__init__.py:179 | `delete_tag` passes each child tag object, not its id, to `delete_tag_parent`, whose `get_tag_by_id` cannot bind an object as a query parameter | tags 1 "animal" (parents `[0]`) and 2 "cat" (parents `[1]`); delete tag 1 | pass `c.id`, so the child loses the parent and, orphaned, is deleted too: the result is `[1, 2]` | not executed | TagService.DeleteTagAsWritten, TagService.ChildBindingCounterexample | TagService.DeleteTag |
| panoptic_back/panoptic/core/db.py:361-364 | the values holding a tag are found with `LIKE '[%id%]'`, a substring match, and `remove` then raises on a list that only contains a longer id | tag 1 and a value `[11]`; delete tag 1 | select the values whose list actually holds the id, then remove it | not executed | TagService.StripTagAsWritten, TagService.LikePatternCounterexample | TagService.StripTag |
