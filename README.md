# budgetmapper core, modelled in Dafny

This project models the domain logic in `backend/budgetmapper/models.py`.
It covers three parts:

- **Classifications** (`classifications.dfy`). A classification system is a forest of
  classifications linked by `parent`. `Classification.level` is the depth of a
  classification in its tree. `ClassificationSystem.roots` returns the parentless
  classifications. `ClassificationSystem.leaves` returns the classifications of a
  system that no classification of that system names as its parent.
- **Budgets** (`budgets.dfy`). `Budget.get_value_of(c)` raises `ValueError` for a
  classification of another system. Otherwise it fetches the one budget item for
  the (budget, classification) pair with `.get` and returns that item's `value`.
  An atomic item's value is its amount. A mapped item's value is the sum of
  `get_value_of` over its mapped classifications in its mapped budget. The base
  class raises `NotImplementedError`.
- **Blobs** (`blobs.dfy`). `Blob.write` reads a stream in pieces of `chunk_size`
  bytes and stores them as chunks 0, 1, 2, ... of a new blob. `BlobReader` reads the
  chunks back in index order through a buffer.

`common.dfy` holds `Option`, `Result`, the exceptions as an `Error` datatype, and bytes.

The database tables are maps keyed by primary key. The `unique_together`
constraints are predicates on those maps: `Budgets.UniqueItems`, and the
`(blob, index)` key of the chunk map. Raised exceptions become `Err` results.
Parent chains and budget mappings are not guaranteed to end by the database
itself. So the recursive members take ranking evidence (`Classifications.Ranked`,
`Budgets.Ranking`) as their termination argument.

The budget functions are ghost. They sum over sets (the children of a classification,
the mapped classifications of an item), and the order of summation is a choice.
`Budgets.SumResolvedRemove` shows that the choice does not change the sum.

The blob side is imperative, like the source. `Blobs.BlobStore` holds the `Blob`
and `BlobChunk` tables as fields, and `Write` updates them in a loop. `Blobs.BlobReader`
keeps a cursor and a buffer as fields. `Next` and `Read` update them. `Pull` is the
pulling loop of `read`. `Blobs.Split` is the specification of the chunks that
`write` produces, and `Blobs.Concat` undoes it.

## Model

| member | source | states |
|---|---|---|
| Classifications.Level | backend/budgetmapper/models.py:125-129 | the level of a classification is bounded by any ranking of the parent chains, so the recursion ends on acyclic tables |
| Classifications.LevelCountsAncestors | backend/budgetmapper/models.py:125-129 | following `parent` k times from c succeeds exactly when k <= level(c): the level is the number of proper ancestors |
| Classifications.LevelOfParent | backend/budgetmapper/models.py:126-129 | level is 0 exactly for a parentless classification, and otherwise one more than the parent's level |
| Classifications.LevelIndependentOfRanking | backend/budgetmapper/models.py:125-129 | the level is a property of the table alone: two rankings give the same level |
| Classifications.RootIsTopAncestor | backend/budgetmapper/models.py:125-129 | the ancestor `level(c)` steps above c is a parentless classification, the root of c's tree |
| Classifications.Root | backend/budgetmapper/models.py:104-106 | a helper with no counterpart in the source, which gives the corrected roots their meaning: the top of c's parent chain is parentless, and when parents stay in their child's system it is one of the roots of c's own system (`SystemRoots`) |
| Classifications.Roots | backend/budgetmapper/models.py:104-106 | `roots` as written: a subset of the table that holds at least the roots of the system asked for; its exact set is given by `RootsIgnoreSystem` |
| Classifications.RootsIgnoreSystem | backend/budgetmapper/models.py:104-106 | as written, `roots` is the same set for every system: all parentless classifications of the table |
| Classifications.RootsIncludeOtherSystems | backend/budgetmapper/models.py:104-106 | a one-row table whose root belongs to system "other" is in the `roots` of system "mine" but not among the roots of "mine" |
| Classifications.SystemRoots | backend/budgetmapper/models.py:104-106 | the corrected roots: c is a root of s exactly when c is in s and has no parent |
| Classifications.Children | backend/budgetmapper/models.py:150 | `filter(parent=c)`: exactly the classifications whose parent is c, whatever their system |
| Classifications.Leaves | backend/budgetmapper/models.py:108-113 | the leaves of a system are members of that system |
| Classifications.LeavesAreUnnamedMembers | backend/budgetmapper/models.py:108-113 | the leaves of s are exactly the members of s minus the parents named by members of s |
| Classifications.LeavesNonEmpty | backend/budgetmapper/models.py:108-113 | on an acyclic table, a system with at least one classification has at least one leaf |
| Budgets.Resolve | backend/budgetmapper/models.py:143-150 | the resolver, written once for the code as written and for the intended aggregation; it has no contract of its own, and `GetValueOfCases`, `GetValueOfIntendedCases` and the `SumResolved` lemmas state what it computes |
| Budgets.GetValueOf | backend/budgetmapper/models.py:143-150 | `get_value_of` as written: it never succeeds for a pair without an item, so the children branch is dead; `GetValueOfCases` gives every case |
| Budgets.GetValueOfIntended | backend/budgetmapper/models.py:143-150 | `get_value_of` as intended; no contract of its own, its cases are stated by `GetValueOfIntendedCases`, `IntendedOneChild` and `IntendedTwoChildren` |
| Budgets.ItemValue | backend/budgetmapper/models.py:160-182 | the `value` property of the three item classes; no contract of its own, stated by `ItemValueByKind` and `MappedPairValue` |
| Budgets.SumResolved | backend/budgetmapper/models.py:180-182 | the `sum(...)` over a set of classifications; no contract of its own, stated by `SumResolvedRemove`, `SumResolvedOk` and `SumResolvedPair` |
| Budgets.Get | backend/budgetmapper/models.py:146 | `.get` returns an item only when it is the one match; it raises DoesNotExist exactly when nothing matches; it raises nothing but DoesNotExist and MultipleObjectsReturned |
| Budgets.GetFindsTheItem | backend/budgetmapper/models.py:164-165 | with unique (budget, classification) pairs, `.get` never raises MultipleObjectsReturned and returns any matching item |
| Budgets.GetValueOfCases | backend/budgetmapper/models.py:143-148 | as written: ValueError for another system's classification; DoesNotExist when the pair has no item; otherwise the value of the item; it never succeeds without an item |
| Budgets.ItemValueByKind | backend/budgetmapper/models.py:160-182 | the base class raises NotImplementedError; an atomic item is worth its amount; a mapped item succeeds exactly when every mapped classification resolves in the mapped budget, and is 0 when it maps nothing |
| Budgets.SumResolvedRemove | backend/budgetmapper/models.py:180-182 | any term can be taken out of a sum of `get_value_of` results first: the sum succeeds exactly when the term and the rest do, and adds them |
| Budgets.SumResolvedOk | backend/budgetmapper/models.py:180-182 | a sum succeeds exactly when every term succeeds, and a failing sum raises the error of one of its terms |
| Budgets.SumResolvedPair | backend/budgetmapper/models.py:180-182 | a sum over two distinct classifications that resolve is the sum of their two values |
| Budgets.MappedPairValue | backend/budgetmapper/models.py:180-182 | a mapped item over classifications c1 and c2 of budget y is worth `y.get_value_of(c1) + y.get_value_of(c2)` |
| Budgets.GetValueOfIntendedCases | backend/budgetmapper/models.py:143-150 | corrected: like the code as written, except that a classification without an item is worth the sum over its children |
| Budgets.IntendedOneChild | backend/budgetmapper/models.py:149-150 | corrected: a classification without an item and with a single child is worth what that child is worth |
| Budgets.IntendedTwoChildren | backend/budgetmapper/models.py:149-150 | corrected: a classification without an item and with two children that resolve is worth their sum |
| Budgets.ParentWithoutItemRaises | backend/budgetmapper/models.py:146-150 | as written: a parent without an item whose only child has an atomic item raises DoesNotExist |
| Budgets.ParentWithoutItemAggregates | backend/budgetmapper/models.py:149-150 | corrected: the same parent is worth its child's amount |
| Blobs.Split | backend/budgetmapper/models.py:196-201 | the pieces `write` reads from the stream: none exactly when the stream is empty or the chunk size is 0; `SplitConcat`, `SplitChunkSizes`, `SplitCount` and `SplitStep` state the rest |
| Blobs.SplitConcat | backend/budgetmapper/models.py:191-201 | for every non-zero chunk size, the chunks that `write` stores, read back to back, are the bytes of the stream |
| Blobs.SplitChunkSizes | backend/budgetmapper/models.py:196-201 | for a positive chunk size, every chunk is non-empty and at most chunk-size long, and every chunk but the last is exactly chunk-size long |
| Blobs.SplitCount | backend/budgetmapper/models.py:196-201 | for a positive chunk size k, n chunks hold the data when n*k covers the data and (n-1)*k does not |
| Blobs.SplitDefaultSizeExample | backend/budgetmapper/models.py:192 | with the default chunk size of 65536, 150000 bytes are stored as chunks of 65536, 65536 and 18928 bytes |
| Blobs.SplitStep | backend/budgetmapper/models.py:197-200 | one read of a non-empty stream yields the first chunk, and the rest of the chunks are those of the bytes after it |
| Blobs.ByteStream.Read | backend/budgetmapper/models.py:197 | the stream read by `write`: a read returns the next bytes and removes them from the stream, min(size, remaining) of them, or all that remain for a negative size |
| Blobs.BlobStore.Write | backend/budgetmapper/models.py:191-201 | adds the blob row; adds chunk i for the i-th read, for exactly the pieces of `Split(stream, chunk_size)`; reads the stream to its end unless the chunk size is 0; keeps every chunk's blob in the blob table |
| Blobs.Sorted | backend/budgetmapper/models.py:216 | the indices in strictly increasing order, and exactly the indices of the set |
| Blobs.Query | backend/budgetmapper/models.py:216 | `filter(blob=id).order_by("index")`: the bodies of the blob's chunks by increasing index; no contract of its own, stated by `QueryLength` and `QueryPlaced` |
| Blobs.QueryLength | backend/budgetmapper/models.py:216 | the ordered query returns one body per chunk of the blob |
| Blobs.QueryPlaced | backend/budgetmapper/models.py:210-216 | after `write` of a new blob, the chunks of that blob ordered by index are the written pieces in order |
| Blobs.BlobReader.constructor | backend/budgetmapper/models.py:214-218 | the reader starts with the blob's chunks ordered by index, an empty buffer, and nothing read |
| Blobs.BlobReader.Next | backend/budgetmapper/models.py:220-222 | the next chunk in index order, or None once every chunk has been pulled |
| Blobs.BlobReader.Pull | backend/budgetmapper/models.py:225-229 | the buffer grows by the chunks pulled, in order; a chunk is pulled only while the size is -1 or the buffer is shorter than the size; the loop ends short only when the chunks are exhausted |
| Blobs.CutPulled | backend/budgetmapper/models.py:230-235 | cutting the buffer keeps the unread bytes in order, and for a size of at least 0 returns min(size, unread) bytes |
| Blobs.BlobReader.Read | backend/budgetmapper/models.py:224-236 | returns the next bytes of the blob, with the returned bytes followed by the unread bytes equal to the bytes unread before; min(size, unread) bytes for size >= 0; everything left for -1; only the buffer for a size below -1; pulls no chunk it does not need |
| Blobs.WriteThenReadAll | backend/budgetmapper/models.py:191-236 | a blob written with a non-zero chunk size into a fresh store and read back with `read()` gives back the bytes of the stream |

## Left out

- Fields that take no part in the modelled behaviour are not modelled: slugs, timestamps, latitude and longitude, and the field validators.
- `Government`, the settings module, migrations, views and serializers are not part of this model.
- Amounts are `real`. `BudgetAmountField` is a float field (models.py:69-70), and the rounding of float sums is not modelled.
- Budgets.SumResolved: it sums a set of classifications in an order the model chooses. The source sums in queryset order. For successful sums the order makes no difference (Budgets.SumResolvedRemove). When several terms fail, the model leaves open which term's error is raised.
- Budgets.Resolve: it is defined only for tables with ranking evidence (`Budgets.Sound`), and that evidence covers the whole table. Every mapped item must map into a budget of strictly lower rank. This excludes tables the source resolves. One example is a budget A with a mapped item at x that maps into A itself at y, where (A, y) holds an atomic item: the source returns that amount for x. Another is two budgets that map into each other at different classifications, with no cycle between items. One such mapping anywhere in the table excludes the whole table, and the model then promises nothing for any query on it.
- Budgets.GetValueOfIntended: the aggregating resolver also requires the whole classification table to be acyclic (`Classifications.Ranked`), not only the chains it walks.
- Budgets.Resolve: where items do form a cycle, the source recurses until Python's recursion limit. That is not modelled.
- Classifications.Level: it requires a ranking of the whole table (`Classifications.Ranked`). A parent cycle anywhere in the table excludes it, although the source needs only the chain walked from c to end. Python's recursion limit on very deep trees is not modelled.
- Blobs.ByteStream.Read: it models the caller's stream with full reads (`min(size, remaining)` bytes). The short reads a raw stream may return, and `None` from a non-blocking stream, are not modelled.
- Blobs.BlobStore.Write: the blob's primary key is a parameter that must be fresh. The source generates it. Database transactions and a write that fails part-way are not modelled.
- Blobs.BlobReader.constructor: it takes the chunks of the blob when the reader is built. Django evaluates the queryset at the first `next`. Chunks added between construction and the first read are therefore not seen by the model.
- The other `BufferedIOBase` methods that `BlobReader` inherits (`readinto`, `read1`, `close`, ...) and `read(None)` are not modelled.

## Findings

| source | as written | input that shows it | evidently intended | confidence | as-written member | corrected member |
|---|---|---|---|---|---|---|
| backend/budgetmapper/models.py:146-150 | `.get` raises `DoesNotExist` when the pair has no item, so `val` is never `None` and the sum over the children is never reached | a budget with no item for classification p, where p's only child l has an atomic item of amount a: `get_value_of(p)` raises `DoesNotExist` | a classification without an item is worth the sum of `get_value_of` over its children (here a) | not executed | Budgets.ParentWithoutItemRaises | Budgets.ParentWithoutItemAggregates |
| backend/budgetmapper/models.py:104-106 | `roots` filters only on `parent=None`, so every system's `roots` holds the parentless classifications of every system | a table with one parentless classification "r" of system "other": "r" is in the `roots` of system "mine" | the parentless classifications of this system only | not executed | Classifications.RootsIncludeOtherSystems | Classifications.SystemRoots |
