# XTDB hash trie reader, modelled in Dafny

This project models `ArrowHashTrie`, the read side of XTDB's hash trie. The
trie is stored column-wise in Arrow vectors and decoded one level at a time,
without building a pointer tree:

- `nodes` is a dense union. Each row has a type id (0 absent, 1 branch,
  2 leaf) and an offset into the column of that type.
- `branch` is a list column of nullable ints. Each element is a row index
  into `nodes`.
- `leaf` is a struct column. Its int field `page-idx` names a data page.

The model has four modules:

- `Wrappers` (`wrappers.dfy`): `Option` stands for a Java `null`; `Result`
  stands for a thrown exception.
- `JavaByte` (`java_byte.dfy`): Java's signed `byte` as the newtype `Int8`,
  and the narrowing cast `(byte) i` as `NarrowToByte`.
- `ArrowHashTrie` (`arrow_hash_trie.dfy`): the decoder.
  - The columns are the immutable datatype `Store`, a record of sequences.
  - `Node` is a datatype `Branch(path, branchVecIdx) | Leaf(path, leafVecIdx)`.
    `path()` on either kind is the datatype field `path`, the value given at
    construction.
  - `forIndex` is `ForIndex`; the unsupported type id becomes
    `Err(UnsupportedOperation)`.
  - `from` is `From`; `Branch.getChildren` is `GetChildren`;
    `Leaf.getPageIndex` is `GetPageIndex`.
  - The visitor is `NodeVisitor` (two handler functions) and `accept` is
    `Accept`.
  - `conjPath` is kept imperative, as in the source: the method `ConjPath`
    allocates a fresh array and copies the prefix in a loop. The pure function
    `Extend` specifies it, and the pure decoding functions use `Extend`.
  - The predicate `Decodes` states what decoding a row must give. `ForIndex`,
    `From` and the children functions are all specified through it.
- `ArrowHashTrieScenarios` (`scenarios.dfy`): small concrete stores worked
  through the decoder.

Notes on edge cases of the code:

- On an empty store the code reads row `rowCount - 1 = -1`, so `From`
  requires at least one row.
- A child is absent when its element is null, and also when the element
  names a row whose type id is 0 (`ChildAbsentExactly` states both cases).
- The code does no bounds checks, so reads are guarded by `requires` clauses
  rather than reported as errors.
- A child's path byte is the element's absolute index in the list column,
  not its position in the branch (see Findings).

Each operation reads only immutable values, so every model function gives the
same result on repeated calls. This is why `getChildren` and `getPageIndex`
are idempotent.

## Model

| member | source | states |
|---|---|---|
| `JavaByte.NarrowToByte` | core/src/main/java/xtdb/trie/ArrowHashTrie.java:63 | `(byte) i` is the unique signed byte congruent to `i` modulo 256 |
| `JavaByte.NarrowKeepsLowBits` | core/src/main/java/xtdb/trie/ArrowHashTrie.java:63 | the unsigned bit pattern of `(byte) i` is `i mod 256` |
| `JavaByte.NarrowInjectiveOnWindow` | core/src/main/java/xtdb/trie/ArrowHashTrie.java:63 | integers less than 256 apart cast to different bytes |
| `JavaByte.NarrowWrapsAt256` | core/src/main/java/xtdb/trie/ArrowHashTrie.java:63 | integers 256 apart cast to the same byte |
| `ArrowHashTrie.Extend` | core/src/main/java/xtdb/trie/ArrowHashTrie.java:42-48 | the extended path is one longer, starts with the old path, and ends with the new byte |
| `ArrowHashTrie.ConjPath` | core/src/main/java/xtdb/trie/ArrowHashTrie.java:42-48 | returns a freshly allocated array holding `path` followed by `idx`; the input array is unchanged |
| `ArrowHashTrie.ForIndex` | core/src/main/java/xtdb/trie/ArrowHashTrie.java:104-113 | type id 0 gives absent; 1 gives `Branch(path, offset)`; 2 gives `Leaf(path, offset)`; any other id gives the error and never a node, each case an if-and-only-if |
| `ArrowHashTrie.DecodesIsFunctional` | core/src/main/java/xtdb/trie/ArrowHashTrie.java:104-113 | the decoding contract allows exactly one result per row and path |
| `ArrowHashTrie.From` | core/src/main/java/xtdb/trie/ArrowHashTrie.java:115-117 | the root is the last row decoded with the empty path, so any root node has path `[]` |
| `ArrowHashTrie.ChildrenFrom` | core/src/main/java/xtdb/trie/ArrowHashTrie.java:60-65 | decoding elements `j` up to `end` in ascending order fails if and only if some element names a row with an unknown type id; otherwise it gives one entry per element, each decoded from that element |
| `ArrowHashTrie.GetChildren` | core/src/main/java/xtdb/trie/ArrowHashTrie.java:60-66 | one entry per element of the branch's list, from start to end, in ascending order; a null element gives absent; any other element gives its row decoded under the parent path plus `(byte) j`, where `j` is the absolute element index; fails if and only if a named row has an unknown type id |
| `ArrowHashTrie.ChildAbsentExactly` | core/src/main/java/xtdb/trie/ArrowHashTrie.java:63 | a child entry is absent if and only if its element is null or the named row has type id 0 |
| `ArrowHashTrie.ChildIsForIndexOfElement` | core/src/main/java/xtdb/trie/ArrowHashTrie.java:61-63 | a present child equals `forIndex(conjPath(path, (byte) j), branchEls[j])` |
| `ArrowHashTrie.ChildPathExtendsParent` | core/src/main/java/xtdb/trie/ArrowHashTrie.java:61-63 | a present child's path is one byte longer than the parent's path, starts with it, and its last byte is `j mod 256` |
| `ArrowHashTrie.SiblingPathsDistinct` | core/src/main/java/xtdb/trie/ArrowHashTrie.java:61-63 | in a branch of at most 256 elements, present children at different positions have different paths |
| `ArrowHashTrie.SiblingPathsWrapBeyond256` | core/src/main/java/xtdb/trie/ArrowHashTrie.java:61-63 | in a wider branch, present children 256 positions apart get the same path |
| `ArrowHashTrie.ChildrenFromKeyBaseShift` | core/src/main/java/xtdb/trie/ArrowHashTrie.java:61-63 | shifting the index the path byte is counted from by a multiple of 256 does not change the children |
| `ArrowHashTrie.ChildrenAgreeWhenStartIsMultipleOf256` | core/src/main/java/xtdb/trie/ArrowHashTrie.java:61-63 | if the branch's list starts at element 0, or at any multiple of 256, the as-written children equal the position-keyed children |
| `ArrowHashTrie.ChildrenByPosition` | core/src/main/java/xtdb/trie/ArrowHashTrie.java:60-65 | corrected children: like `GetChildren`, but the path byte is `(byte)` of the position in the list |
| `ArrowHashTrie.PositionalPathConsistent` | core/src/main/java/xtdb/trie/ArrowHashTrie.java:61-63 | with the corrected children, the child at position `k` has path `path + [(byte) k]`, whose unsigned last byte is `k` when `k < 256` |
| `ArrowHashTrie.GetPageIndex` | core/src/main/java/xtdb/trie/ArrowHashTrie.java:89-91 | a leaf's page index is the `page-idx` value of the record it is bound to |
| `ArrowHashTrie.LeafPageIndexOfRow` | core/src/main/java/xtdb/trie/ArrowHashTrie.java:104-113 | a leaf decoded from row `i` keeps the given path and reads `page-idx` at that row's offset |
| `ArrowHashTrie.Accept` | core/src/main/java/xtdb/trie/ArrowHashTrie.java:73-76 | a branch is handed to `visitBranch` and a leaf to `visitLeaf`, and the handler's result is returned |
| `ArrowHashTrie.AcceptUsesOneHandler` | core/src/main/java/xtdb/trie/ArrowHashTrie.java:98-101 | `accept` reads only the handler for the node's kind: replacing the other handler leaves the result unchanged |
| `ArrowHashTrieScenarios.LoneLeafDecodes` | core/src/main/java/xtdb/trie/ArrowHashTrie.java:115-117 | a one-row store holding a leaf with page 7 decodes to a leaf with path `[]` and page index 7 |
| `ArrowHashTrieScenarios.BranchOverLeafDecodes` | core/src/main/java/xtdb/trie/ArrowHashTrie.java:60-66 | a root branch of four elements, whose element 2 names a leaf with page 42, has children `[absent, absent, Leaf([2]), absent]`, and that leaf's page index is 42 |
| `ArrowHashTrieScenarios.UnknownTypeIdFails` | core/src/main/java/xtdb/trie/ArrowHashTrie.java:111 | a root row with type id 3 fails with the error, whatever its offset |
| `ArrowHashTrieScenarios.SecondBranchChildPathUsesElementIndex` | core/src/main/java/xtdb/trie/ArrowHashTrie.java:61-63 | for a branch whose list starts at element 4, the child at position 2 gets path `[6]` as written and `[2]` when keyed by position |

## Left out

- Arrow vector internals are not modelled: `DenseUnionVector`, `ListVector`, `StructVector`, `IntVector` and their buffers. Each column is a sequence with the accessors the code calls.
- The private constructor (lines 22-28) is not modelled. It looks up the vectors by name and type; the model takes the `Store` as given.
- `trieRoot.getRowCount()` is taken to be the number of rows of `nodes`, that is `|typeIds|`.
- Out-of-range reads are not modelled. This covers rows, list offsets, list elements and leaf records, and `from` on an empty store (row -1). What happens then depends on Arrow's bounds checking, which is not part of this model, so reads are guarded by `requires` clauses.
- GetChildren: its `requires` (through `ElementsReadable`) asks that every non-null element of the branch's list name an in-range row, including elements after the first corrupt child, which the stream never reaches because it stops at the first exception. A list with a corrupt child followed by an out-of-range row index is therefore outside the model, although the code throws `UnsupportedOperationException` on it.
- Accept: the `NodeVisitor` handlers are total pure functions. A Java handler's side effects and exceptions are not modelled, nor that the chosen handler is called exactly once. `AcceptUsesOneHandler` shows only that the result does not depend on the other handler.
- Java's 32-bit `int` is modelled as an unbounded integer. This covers row indices, offsets, element indices and page indices; overflow of `currentPathLength + 1` is not modelled. The one narrowing the code does, `(byte) childIdx`, is modelled exactly.
- The `page-idx` column is modelled as non-null ints. `IntVector.get` on a null entry is not modelled.
- Node views hold their path as an immutable sequence. In Java, `path()` returns the array stored in the view, and a caller could mutate it. That sharing is not modelled. `ConjPath` shows that a child's path never shares the parent's array.
- `GetChildren` models the stream's failure by whether some child fails, not by which one. The exception carries no data, so the two agree.
- Properties of the whole trie are not claimed: acyclicity, children pointing to earlier rows, and no row reachable by two paths. The code never checks them.
- Not modelled, as they hold no decoding logic: the Kafka log factory, the JSON unnest deserializer, the multipart interface and the transaction request data class.

## Findings

| source | as written | input that shows it | evidently intended | confidence | as-written member | corrected member |
|---|---|---|---|---|---|---|
| core/src/main/java/xtdb/trie/ArrowHashTrie.java:61-63 | a child's path byte is `(byte) childIdx`, the element's absolute index in the list column | a second branch whose list spans elements 4 to 8: its child at position 2 gets path `[6]` | the path byte is the child's position in its branch, giving `[2]`: the child's position in its branch, which is the bucket each path byte is meant to record | not executed; medium (intent inferred from the role of a hash-trie path, not stated in the code) | `ArrowHashTrieScenarios.SecondBranchChildPathUsesElementIndex` | `ArrowHashTrie.ChildrenByPosition` |

`GetChildren` stays the model of `getChildren` as written.
`ChildrenByPosition` is the corrected definition, and `PositionalPathConsistent` proves the intended path property for it.
`ChildrenAgreeWhenStartIsMultipleOf256` proves the two agree whenever the list starts at element 0.
