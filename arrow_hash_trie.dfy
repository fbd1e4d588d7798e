/** The read side of the hash trie: a decoder over a trie stored column-wise.

    The store holds three columns:
    - `nodes`, a dense union: per row a type id (0 absent, 1 branch, 2 leaf)
      and an offset into the column of that type;
    - `branch`, a list column whose elements are nullable row indices into
      `nodes`; list `b` spans elements `listOffsets[b]` to `listOffsets[b+1]`;
    - `leaf`, a struct column whose `page-idx` field is an int.

    Decoding goes one level at a time: a row becomes a `Node` view carrying
    the path of child bytes taken from the root. */
module ArrowHashTrie {
  import opened Wrappers
  import opened JavaByte

  const AbsentTypeId: int := 0
  const BranchTypeId: int := 1
  const LeafTypeId: int := 2

  /** A path of child bytes from the root; the root's path is empty. */
  type Path = seq<Int8>

  /** A decoded row: a branch bound to its list in the `branch` column, or a
      leaf bound to its record in the `leaf` column. */
  datatype Node =
    | Branch(path: Path, branchVecIdx: int)
    | Leaf(path: Path, leafVecIdx: int)

  type BranchNode = n: Node | n.Branch? witness Branch([], 0)

  type LeafNode = n: Node | n.Leaf? witness Leaf([], 0)

  /** The `UnsupportedOperationException` thrown for an unknown type id. */
  datatype TrieError = UnsupportedOperation

  /** The immutable columns the decoder reads. */
  datatype Store = Store(
    typeIds: seq<int>,           // nodes: type id per row
    offsets: seq<int>,           // nodes: offset per row into its type's column
    listOffsets: seq<int>,       // branch: list b spans [listOffsets[b], listOffsets[b+1])
    branchEls: seq<Option<int>>, // branch: the list elements, None for null
    pageIdx: seq<int>)           // leaf: the page-idx field
  {
    function RowCount(): nat { |typeIds| }

    /** Row `i` of `nodes` can be read. */
    predicate HasRow(i: int) { 0 <= i < |typeIds| && i < |offsets| }

    /** The offsets of list `b` of `branch` can be read. */
    predicate HasList(b: int) { 0 <= b && b + 1 < |listOffsets| }

    function ElementStart(b: int): int
      requires HasList(b)
    {
      listOffsets[b]
    }

    function ElementEnd(b: int): int
      requires HasList(b)
    {
      listOffsets[b + 1]
    }

    /** The elements `lo` up to `hi` of `branch` can be read, and every
        non-null one names a readable row. */
    predicate ElementsReadable(lo: int, hi: int)
    {
      && (lo < hi ==> 0 <= lo && hi <= |branchEls|)
      && forall j :: lo <= j < hi && 0 <= j < |branchEls| && branchEls[j].Some? ==> HasRow(branchEls[j].value)
    }

    /** Record `l` of the `page-idx` field can be read. */
    predicate HasPage(l: int) { 0 <= l < |pageIdx| }
  }

  /** The number of elements in the half-open range `lo` to `hi`; an empty
      range when `hi <= lo`, as `IntStream.range` makes it. */
  function RangeLength(lo: int, hi: int): nat
  {
    if lo < hi then hi - lo else 0
  }

  predicate KnownTypeId(t: int)
  {
    t == AbsentTypeId || t == BranchTypeId || t == LeafTypeId
  }

  /** What decoding row `i` under `path` must give: absent for type id 0, a
      branch or leaf bound to the row's offset and carrying `path` for 1 and
      2, and the error for any other type id, never a default node. */
  ghost predicate Decodes(s: Store, path: Path, i: int, r: Result<Option<Node>, TrieError>)
    requires s.HasRow(i)
  {
    var t := s.typeIds[i];
    && (r.Err? <==> !KnownTypeId(t))
    && (r == Ok(None) <==> t == AbsentTypeId)
    && (t == BranchTypeId <==> r == Ok(Some(Branch(path, s.offsets[i]))))
    && (t == LeafTypeId <==> r == Ok(Some(Leaf(path, s.offsets[i]))))
  }

  /** A new path: `path` followed by the byte `idx`. */
  function Extend(path: Path, idx: Int8): (r: Path)
    ensures |r| == |path| + 1
    ensures r[..|path|] == path && r[|path|] == idx
  {
    path + [idx]
  }

  /** `conjPath`: allocates a new array one longer than `path`, copies
      `path` into it and writes `idx` into the last slot. */
  method ConjPath(path: array<Int8>, idx: Int8) returns (childPath: array<Int8>)
    ensures fresh(childPath)
    ensures childPath[..] == Extend(path[..], idx)
    ensures path[..] == old(path[..])
  {
    var currentPathLength := path.Length;
    childPath := new Int8[currentPathLength + 1];
    var i := 0;
    while i < currentPathLength
      invariant 0 <= i <= currentPathLength
      invariant childPath[..i] == path[..i]
    {
      childPath[i] := path[i];
      i := i + 1;
    }
    childPath[currentPathLength] := idx;
    assert childPath[..currentPathLength] == path[..];
  }

  /** `forIndex`: classifies row `idx` by its type id. */
  function ForIndex(s: Store, path: Path, idx: int): (r: Result<Option<Node>, TrieError>)
    requires s.HasRow(idx)
    ensures Decodes(s, path, idx, r)
  {
    var nodeOffset := s.offsets[idx];
    var typeId := s.typeIds[idx];
    if typeId == AbsentTypeId then Ok(None)
    else if typeId == BranchTypeId then Ok(Some(Branch(path, nodeOffset)))
    else if typeId == LeafTypeId then Ok(Some(Leaf(path, nodeOffset)))
    else Err(UnsupportedOperation)
  }

  /** `from`: resolves the last row with the empty path. */
  function From(s: Store): (r: Result<Option<Node>, TrieError>)
    requires s.HasRow(s.RowCount() - 1)
    ensures Decodes(s, [], s.RowCount() - 1, r)
    ensures r.Ok? && r.value.Some? ==> r.value.value.path == []
  {
    ForIndex(s, [], s.RowCount() - 1)
  }

  /** The child for element `j` of `branch`: absent when the element is
      null, otherwise the row it names decoded under `parentPath` + `key`. */
  function ChildAt(s: Store, parentPath: Path, j: int, key: Int8): Result<Option<Node>, TrieError>
    requires 0 <= j < |s.branchEls|
    requires s.branchEls[j].Some? ==> s.HasRow(s.branchEls[j].value)
  {
    match s.branchEls[j]
    case None => Ok(None)
    case Some(row) => ForIndex(s, Extend(parentPath, key), row)
  }

  /** What the child decoded from element `j` under `key` must be. */
  ghost predicate ChildDecodes(s: Store, parentPath: Path, j: int, key: Int8, c: Option<Node>)
    requires 0 <= j < |s.branchEls|
    requires s.branchEls[j].Some? ==> s.HasRow(s.branchEls[j].value)
  {
    match s.branchEls[j]
    case None => c == None
    case Some(row) => Decodes(s, parentPath + [key], row, Ok(c))
  }

  /** A child's element holds a row whose type id is unknown. */
  predicate CorruptChild(s: Store, j: int)
    requires 0 <= j < |s.branchEls|
    requires s.branchEls[j].Some? ==> s.HasRow(s.branchEls[j].value)
  {
    s.branchEls[j].Some? && !KnownTypeId(s.typeIds[s.branchEls[j].value])
  }

  /** Decodes the elements `j` up to `end` of `branch` in ascending order;
      element `k` gets the path byte `(byte) (k - keyBase)`. Fails as soon as
      one child fails, as the stream does. */
  function ChildrenFrom(s: Store, parentPath: Path, j: int, end: int, keyBase: int): (r: Result<seq<Option<Node>>, TrieError>)
    requires s.ElementsReadable(j, end)
    ensures r.Err? <==> exists k :: j <= k < end && CorruptChild(s, k)
    ensures r.Ok? ==> |r.value| == RangeLength(j, end)
    ensures r.Ok? ==> forall k :: 0 <= k < |r.value| ==>
      ChildDecodes(s, parentPath, j + k, NarrowToByte(j + k - keyBase), r.value[k])
    decreases end - j
  {
    if end <= j then Ok([])
    else
      match ChildAt(s, parentPath, j, NarrowToByte(j - keyBase))
      case Err(e) => assert CorruptChild(s, j); Err(e)
      case Ok(c) =>
        match ChildrenFrom(s, parentPath, j + 1, end, keyBase)
        case Err(e) => Err(e)
        case Ok(cs) => Ok([c] + cs)
  }

  /** The branch's list can be read, with all the rows it names. */
  predicate BranchReadable(s: Store, b: BranchNode)
  {
    && s.HasList(b.branchVecIdx)
    && s.ElementsReadable(s.ElementStart(b.branchVecIdx), s.ElementEnd(b.branchVecIdx))
  }

  /** `Branch.getChildren`, as written: the child for element `j` of the
      branch's list gets the path byte `(byte) j`, where `j` is the element's
      absolute index in the list column, not its position in the list. */
  function GetChildren(s: Store, b: BranchNode): (r: Result<seq<Option<Node>>, TrieError>)
    requires BranchReadable(s, b)
    ensures var start, end := s.ElementStart(b.branchVecIdx), s.ElementEnd(b.branchVecIdx);
      && (r.Err? <==> exists j :: start <= j < end && CorruptChild(s, j))
      && (r.Ok? ==> |r.value| == RangeLength(start, end))
      && (r.Ok? ==> forall k :: 0 <= k < |r.value| ==>
            ChildDecodes(s, b.path, start + k, NarrowToByte(start + k), r.value[k]))
  {
    ChildrenFrom(s, b.path, s.ElementStart(b.branchVecIdx), s.ElementEnd(b.branchVecIdx), 0)
  }

  /** The children with the path byte taken from the position in the list,
      `(byte) (j - start)`: the child's position in its branch, which is the
      bucket each path byte is meant to record. */
  function ChildrenByPosition(s: Store, b: BranchNode): (r: Result<seq<Option<Node>>, TrieError>)
    requires BranchReadable(s, b)
    ensures var start, end := s.ElementStart(b.branchVecIdx), s.ElementEnd(b.branchVecIdx);
      && (r.Err? <==> exists j :: start <= j < end && CorruptChild(s, j))
      && (r.Ok? ==> |r.value| == RangeLength(start, end))
      && (r.Ok? ==> forall k :: 0 <= k < |r.value| ==>
            ChildDecodes(s, b.path, start + k, NarrowToByte(k), r.value[k]))
  {
    var start := s.ElementStart(b.branchVecIdx);
    ChildrenFrom(s, b.path, start, s.ElementEnd(b.branchVecIdx), start)
  }

  /** `Leaf.getPageIndex`: the page-idx field of the leaf's record. */
  function GetPageIndex(s: Store, l: LeafNode): (r: int)
    requires s.HasPage(l.leafVecIdx)
    ensures r == s.pageIdx[l.leafVecIdx]
  {
    s.pageIdx[l.leafVecIdx]
  }

  /** `NodeVisitor`: one handler per node kind. */
  datatype NodeVisitor<R> = NodeVisitor(visitBranch: BranchNode -> R, visitLeaf: LeafNode -> R)

  /** `accept`: hands the node to the handler for its kind and returns what
      that handler returns. */
  function Accept<R>(n: Node, visitor: NodeVisitor<R>): (r: R)
    ensures n.Branch? ==> r == visitor.visitBranch(n)
    ensures n.Leaf? ==> r == visitor.visitLeaf(n)
  {
    match n
    case Branch(_, _) => visitor.visitBranch(n)
    case Leaf(_, _) => visitor.visitLeaf(n)
  }

  // ---------------------------------------------------------------------
  // Properties of the decoder

  /** Decoding a row determines the result: `Decodes` admits one result. */
  lemma DecodesIsFunctional(s: Store, path: Path, i: int, r1: Result<Option<Node>, TrieError>, r2: Result<Option<Node>, TrieError>)
    requires s.HasRow(i)
    requires Decodes(s, path, i, r1) && Decodes(s, path, i, r2)
    ensures r1 == r2
  {
    var t := s.typeIds[i];
    if !KnownTypeId(t) {
      assert r1.error.UnsupportedOperation? && r2.error.UnsupportedOperation?;
    }
  }

  /** A child entry is absent exactly when its list element is null or the
      row it names has the absent type id. */
  lemma ChildAbsentExactly(s: Store, b: BranchNode, k: int)
    requires BranchReadable(s, b) && GetChildren(s, b).Ok?
    requires 0 <= k < |GetChildren(s, b).value|
    ensures var j := s.ElementStart(b.branchVecIdx) + k;
      GetChildren(s, b).value[k].None? <==>
        (s.branchEls[j].None? || s.typeIds[s.branchEls[j].value] == AbsentTypeId)
  {
  }

  /** A present child is `forIndex(conjPath(path, (byte) j), branchEls[j])`
      for its absolute element index `j`. */
  lemma ChildIsForIndexOfElement(s: Store, b: BranchNode, k: int)
    requires BranchReadable(s, b) && GetChildren(s, b).Ok?
    requires 0 <= k < |GetChildren(s, b).value|
    ensures var j := s.ElementStart(b.branchVecIdx) + k;
      s.branchEls[j].Some? ==>
        Ok(GetChildren(s, b).value[k]) == ForIndex(s, Extend(b.path, NarrowToByte(j)), s.branchEls[j].value)
  {
    var j := s.ElementStart(b.branchVecIdx) + k;
    if s.branchEls[j].Some? {
      var row := s.branchEls[j].value;
      var p := Extend(b.path, NarrowToByte(j));
      assert p == b.path + [NarrowToByte(j)];
      DecodesIsFunctional(s, p, row, Ok(GetChildren(s, b).value[k]), ForIndex(s, p, row));
    }
  }

  /** A present child's path is the parent's path plus one byte, the low 8
      bits of the child's absolute element index; the parent's path is a
      prefix of it. */
  lemma ChildPathExtendsParent(s: Store, b: BranchNode, k: int)
    requires BranchReadable(s, b) && GetChildren(s, b).Ok?
    requires 0 <= k < |GetChildren(s, b).value| && GetChildren(s, b).value[k].Some?
    ensures var p := GetChildren(s, b).value[k].value.path;
      && |p| == |b.path| + 1
      && p[..|b.path|] == b.path
      && Unsigned(p[|b.path|]) == (s.ElementStart(b.branchVecIdx) + k) % 256
  {
    var j := s.ElementStart(b.branchVecIdx) + k;
    var p := GetChildren(s, b).value[k].value.path;
    assert p == b.path + [NarrowToByte(j)];
    NarrowKeepsLowBits(j);
  }

  /** In a branch of at most 256 elements, present children at different
      positions have different paths. */
  lemma SiblingPathsDistinct(s: Store, b: BranchNode, k1: int, k2: int)
    requires BranchReadable(s, b) && GetChildren(s, b).Ok?
    requires |GetChildren(s, b).value| <= 256
    requires 0 <= k1 < k2 < |GetChildren(s, b).value|
    requires GetChildren(s, b).value[k1].Some? && GetChildren(s, b).value[k2].Some?
    ensures GetChildren(s, b).value[k1].value.path != GetChildren(s, b).value[k2].value.path
  {
    var start := s.ElementStart(b.branchVecIdx);
    var cs := GetChildren(s, b).value;
    assert cs[k1].value.path == b.path + [NarrowToByte(start + k1)];
    assert cs[k2].value.path == b.path + [NarrowToByte(start + k2)];
    NarrowInjectiveOnWindow(start + k1, start + k2);
    assert cs[k1].value.path[|b.path|] != cs[k2].value.path[|b.path|];
  }

  /** In a branch of more than 256 elements, present children 256 positions
      apart get the same path: the byte cast wraps. */
  lemma SiblingPathsWrapBeyond256(s: Store, b: BranchNode, k: int)
    requires BranchReadable(s, b) && GetChildren(s, b).Ok?
    requires 0 <= k && k + 256 < |GetChildren(s, b).value|
    requires GetChildren(s, b).value[k].Some? && GetChildren(s, b).value[k + 256].Some?
    ensures GetChildren(s, b).value[k].value.path == GetChildren(s, b).value[k + 256].value.path
  {
    var start := s.ElementStart(b.branchVecIdx);
    NarrowWrapsAt256(start + k);
  }

  /** Shifting the key base by a multiple of 256 does not change any path
      byte, so it does not change the children. */
  lemma {:induction false} ChildrenFromKeyBaseShift(s: Store, parentPath: Path, j: int, end: int, base1: int, base2: int)
    requires s.ElementsReadable(j, end)
    requires (base1 - base2) % 256 == 0
    ensures ChildrenFrom(s, parentPath, j, end, base1) == ChildrenFrom(s, parentPath, j, end, base2)
    decreases end - j
  {
    if j < end {
      assert NarrowToByte(j - base1) == NarrowToByte(j - base2) by {
        var d := (base1 - base2) / 256;
        assert base1 - base2 == 256 * d;
        NarrowShift(j - base1, d);
      }
      ChildrenFromKeyBaseShift(s, parentPath, j + 1, end, base1, base2);
    }
  }

  /** Adding `256 * d` to an integer does not change its byte. */
  lemma {:induction false} NarrowShift(i: int, d: int)
    ensures NarrowToByte(i + 256 * d) == NarrowToByte(i)
    decreases if d < 0 then -d else d
  {
    if d > 0 {
      NarrowShift(i, d - 1);
      NarrowWrapsAt256(i + 256 * (d - 1));
    } else if d < 0 {
      NarrowShift(i, d + 1);
      NarrowWrapsAt256(i + 256 * d);
    }
  }

  /** When the branch's list starts at an element index that is a multiple
      of 256 (in particular at 0), the absolute element index and the
      position in the list give the same path bytes. */
  lemma ChildrenAgreeWhenStartIsMultipleOf256(s: Store, b: BranchNode)
    requires BranchReadable(s, b)
    requires s.ElementStart(b.branchVecIdx) % 256 == 0
    ensures GetChildren(s, b) == ChildrenByPosition(s, b)
  {
    var start := s.ElementStart(b.branchVecIdx);
    ChildrenFromKeyBaseShift(s, b.path, start, s.ElementEnd(b.branchVecIdx), 0, start);
  }

  /** With path bytes taken from positions, the child at position `k` has
      the parent's path plus the byte `k`: the child's position in its branch,
      which is the bucket each path byte is meant to record. */
  lemma PositionalPathConsistent(s: Store, b: BranchNode, k: int)
    requires BranchReadable(s, b) && ChildrenByPosition(s, b).Ok?
    requires 0 <= k < |ChildrenByPosition(s, b).value| && ChildrenByPosition(s, b).value[k].Some?
    ensures var p := ChildrenByPosition(s, b).value[k].value.path;
      && p == b.path + [NarrowToByte(k)]
      && (k < 256 ==> Unsigned(p[|b.path|]) == k)
  {
    NarrowKeepsLowBits(k);
  }

  /** A leaf decoded from row `i` reads the page index of the leaf record
      that row's offset points to. */
  lemma LeafPageIndexOfRow(s: Store, path: Path, i: int)
    requires s.HasRow(i) && s.typeIds[i] == LeafTypeId && s.HasPage(s.offsets[i])
    ensures ForIndex(s, path, i).Ok? && ForIndex(s, path, i).value.Some?
    ensures var l := ForIndex(s, path, i).value.value;
      l.Leaf? && l.path == path && GetPageIndex(s, l) == s.pageIdx[s.offsets[i]]
  {
  }

  /** `accept` consults only the handler for the node's kind: replacing the
      other handler does not change the result. */
  lemma AcceptUsesOneHandler<R>(n: Node, v1: NodeVisitor<R>, v2: NodeVisitor<R>)
    requires n.Branch? ==> v1.visitBranch == v2.visitBranch
    requires n.Leaf? ==> v1.visitLeaf == v2.visitLeaf
    ensures Accept(n, v1) == Accept(n, v2)
  {
  }
}
