/** Small stores worked through the decoder: a lone leaf, a branch over one
    leaf, an unknown type id, and a second branch whose list does not start
    at element 0. */
module ArrowHashTrieScenarios {
  import opened Wrappers
  import opened JavaByte
  import opened ArrowHashTrie

  /** One row, a leaf whose page index is 7. */
  function LoneLeaf(): Store
  {
    Store([LeafTypeId], [0], [0], [], [7])
  }

  lemma LoneLeafDecodes()
    ensures From(LoneLeaf()) == Ok(Some(Leaf([], 0)))
    ensures GetPageIndex(LoneLeaf(), Leaf([], 0)) == 7
  {
  }

  /** Row 0 is a leaf with page index 42; row 1, the root, is a branch of
      four elements whose element 2 names row 0. */
  function BranchOverLeaf(): Store
  {
    Store([LeafTypeId, BranchTypeId], [0, 0], [0, 4], [None, None, Some(0), None], [42])
  }

  lemma BranchOverLeafDecodes()
    ensures From(BranchOverLeaf()) == Ok(Some(Branch([], 0)))
    ensures GetChildren(BranchOverLeaf(), Branch([], 0)) == Ok([None, None, Some(Leaf([2], 0)), None])
    ensures GetPageIndex(BranchOverLeaf(), Leaf([2], 0)) == 42
  {
    var s := BranchOverLeaf();
    var cs := GetChildren(s, Branch([], 0));
    assert cs.Ok? && |cs.value| == 4;
    assert cs.value[0] == None && cs.value[1] == None && cs.value[3] == None;
    assert NarrowToByte(2) == 2;
    assert cs.value[2] == Some(Leaf([2], 0));
    assert cs.value == [None, None, Some(Leaf([2], 0)), None];
  }

  /** A root row with type id 3 fails to decode, whatever its offset. */
  lemma UnknownTypeIdFails(offset: int)
    ensures From(Store([3], [offset], [], [], [])) == Err(UnsupportedOperation)
  {
  }

  /** Row 0 is a leaf; row 1 a branch over elements 0 to 4, all null; row 2,
      the root, a branch over elements 4 to 8 whose element 6, the third of
      its list, names row 0. */
  function SecondBranch(): Store
  {
    Store([LeafTypeId, BranchTypeId, BranchTypeId], [0, 0, 1], [0, 4, 8],
      [None, None, None, None, None, None, Some(0), None], [42])
  }

  /** As written, the leaf at position 2 of the root's list gets the path
      [6], its absolute element index, not [2]. */
  lemma SecondBranchChildPathUsesElementIndex()
    ensures From(SecondBranch()) == Ok(Some(Branch([], 1)))
    ensures GetChildren(SecondBranch(), Branch([], 1)) == Ok([None, None, Some(Leaf([6], 0)), None])
    ensures ChildrenByPosition(SecondBranch(), Branch([], 1)) == Ok([None, None, Some(Leaf([2], 0)), None])
  {
    var s := SecondBranch();
    var cs := GetChildren(s, Branch([], 1));
    assert cs.Ok? && |cs.value| == 4;
    assert cs.value[0] == None && cs.value[1] == None && cs.value[3] == None;
    assert NarrowToByte(6) == 6;
    assert cs.value[2] == Some(Leaf([6], 0));
    assert cs.value == [None, None, Some(Leaf([6], 0)), None];
    var ps := ChildrenByPosition(s, Branch([], 1));
    assert ps.Ok? && |ps.value| == 4;
    assert ps.value[0] == None && ps.value[1] == None && ps.value[3] == None;
    assert NarrowToByte(2) == 2;
    assert ps.value[2] == Some(Leaf([2], 0));
    assert ps.value == [None, None, Some(Leaf([2], 0)), None];
  }
}
