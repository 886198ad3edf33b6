/**
  The fixed-depth Merkle group tree of the merkle pallet, as its unit tests
  pin it down: groups are created with a depth between 1 and 32, members are
  appended in order, the root is recomputed level by level with a 2-to-1 hash
  (a node without a right sibling is hashed with itself), and a membership
  path is checked for its length before it is folded up to the root.

  The 2-to-1 hash (`hash_leaves`, Poseidon in the pallet) is a parameter of
  the storage.
 */
module MerkleGroups {
  import opened Wrappers

  /** The largest tree depth the runtime is configured with. */
  const MaxTreeDepth: nat := 32

  datatype Error =
    | InvalidTreeDepth
    | GroupAlreadyExists
    | GroupNotFound
    | ExceededMaxDepth
    | InvalidPathLength
    | InvalidProof

  /** The dispatch error strings the pallet reports. */
  function Message(e: Error): string
  {
    match e
    case InvalidTreeDepth => "Invalid tree depth."
    case GroupAlreadyExists => "Group already exists."
    case GroupNotFound => "Group not found."
    case ExceededMaxDepth => "Exceeded maximum tree depth."
    case InvalidPathLength => "Invalid path length."
    case InvalidProof => "Invalid proof."
  }

  datatype Group<T> = Group(depth: nat, leaves: seq<T>, rootHash: T)

  predicate ValidDepth(depth: nat)
  {
    1 <= depth <= MaxTreeDepth
  }

  function Pow2(n: nat): (r: nat)
    ensures r >= 1
  {
    if n == 0 then 1 else 2 * Pow2(n - 1)
  }

  /** The number of leaves a tree of the given depth takes: `u32::MAX >> (32 - depth)`. */
  function MaxLeaves(depth: nat): nat
  {
    Pow2(depth) - 1
  }

  // ---------------------------------------------------------------------------
  // Roots and paths

  /** One level up: pairs of nodes are hashed; a last node without a partner is hashed with itself. */
  function Layer<T>(h: (T, T) -> T, nodes: seq<T>): (r: seq<T>)
    ensures |r| == (|nodes| + 1) / 2
  {
    seq((|nodes| + 1) / 2, j requires 0 <= j < (|nodes| + 1) / 2 =>
      h(nodes[2 * j], if 2 * j + 1 < |nodes| then nodes[2 * j + 1] else nodes[2 * j]))
  }

  /** The nodes `k` levels above `nodes`. */
  function Levels<T>(h: (T, T) -> T, nodes: seq<T>, k: nat): (r: seq<T>)
    ensures |nodes| > 0 ==> |r| > 0
    decreases k
  {
    if k == 0 then nodes else Levels(h, Layer(h, nodes), k - 1)
  }

  /** The root of a tree of the given depth over `leaves`; `emptyRoot` while the group has no members. */
  function TreeRoot<T>(h: (T, T) -> T, depth: nat, leaves: seq<T>, emptyRoot: T): T
  {
    if |leaves| == 0 then emptyRoot else Levels(h, leaves, depth)[0]
  }

  /** One step of a path: `true` means the current node is the left child. */
  function Step<T>(h: (T, T) -> T, current: T, edge: (bool, T)): T
  {
    if edge.0 then h(current, edge.1) else h(edge.1, current)
  }

  /** The node a path leads to from a leaf, folding from the leaf upward. */
  function FoldPath<T>(h: (T, T) -> T, leaf: T, path: seq<(bool, T)>): T
  {
    if |path| == 0 then leaf else FoldPath(h, Step(h, leaf, path[0]), path[1..])
  }

  /** The edge from node `i` to its parent: its flag and its sibling (itself when it has none). */
  function Sibling<T>(nodes: seq<T>, i: nat): (bool, T)
    requires i < |nodes|
  {
    if i % 2 == 0 then (true, if i + 1 < |nodes| then nodes[i + 1] else nodes[i]) else (false, nodes[i - 1])
  }

  /** The authentication path of node `i` through `k` levels. */
  function AuthPath<T>(h: (T, T) -> T, nodes: seq<T>, i: nat, k: nat): (r: seq<(bool, T)>)
    requires i < |nodes|
    ensures |r| == k
    decreases k
  {
    if k == 0 then [] else [Sibling(nodes, i)] + AuthPath(h, Layer(h, nodes), i / 2, k - 1)
  }

  lemma StepToParent<T>(h: (T, T) -> T, nodes: seq<T>, i: nat)
    requires i < |nodes|
    ensures Step(h, nodes[i], Sibling(nodes, i)) == Layer(h, nodes)[i / 2]
  {
    if i % 2 == 1 {
      assert 2 * (i / 2) == i - 1;
    }
  }

  /** A level fits in a tree of height `k` when it has at most `2^k` nodes: `k` levels up, one node is left. */
  lemma {:induction false} LevelsSingle<T>(h: (T, T) -> T, nodes: seq<T>, k: nat)
    requires 0 < |nodes| <= Pow2(k)
    ensures |Levels(h, nodes, k)| == 1
    decreases k
  {
    if k > 0 {
      LayerFits(|nodes|, k);
      LevelsSingle(h, Layer(h, nodes), k - 1);
    }
  }

  lemma LayerFits(n: nat, k: nat)
    requires 0 < k && n <= Pow2(k)
    ensures (n + 1) / 2 <= Pow2(k - 1)
  {
  }

  lemma HalfIndex(i: nat, n: nat)
    requires i < n
    ensures i / 2 < (n + 1) / 2
  {
  }

  /** Folding a node's authentication path through `k` levels reaches the single node `k` levels up. */
  lemma {:induction false} AuthPathFolds<T>(h: (T, T) -> T, nodes: seq<T>, i: nat, k: nat)
    requires i < |nodes| && |Levels(h, nodes, k)| == 1
    ensures FoldPath(h, nodes[i], AuthPath(h, nodes, i, k)) == Levels(h, nodes, k)[0]
    decreases k
  {
    if k > 0 {
      HalfIndex(i, |nodes|);
      LevelsUnfold(h, nodes, k);
      FoldOneLevel(h, nodes, i, k);
      AuthPathFolds(h, Layer(h, nodes), i / 2, k - 1);
    }
  }

  /** The first step of an authentication path moves to the parent, whose own path is the rest. */
  lemma FoldOneLevel<T>(h: (T, T) -> T, nodes: seq<T>, i: nat, k: nat)
    requires i < |nodes| && 0 < k
    ensures i / 2 < |Layer(h, nodes)|
    ensures FoldPath(h, nodes[i], AuthPath(h, nodes, i, k))
      == FoldPath(h, Layer(h, nodes)[i / 2], AuthPath(h, Layer(h, nodes), i / 2, k - 1))
  {
    HalfIndex(i, |nodes|);
    var edge, rest := Sibling(nodes, i), AuthPath(h, Layer(h, nodes), i / 2, k - 1);
    assert AuthPath(h, nodes, i, k) == [edge] + rest;
    FoldPathCons(h, nodes[i], edge, rest);
    StepToParent(h, nodes, i);
  }

  lemma FoldPathCons<T>(h: (T, T) -> T, leaf: T, edge: (bool, T), rest: seq<(bool, T)>)
    ensures FoldPath(h, leaf, [edge] + rest) == FoldPath(h, Step(h, leaf, edge), rest)
  {
    assert ([edge] + rest)[1..] == rest;
  }

  /** Every member of a group has a path of the group's depth that folds to the group's root. */
  lemma MemberPathFolds<T>(h: (T, T) -> T, depth: nat, leaves: seq<T>, emptyRoot: T, i: nat)
    requires i < |leaves| <= MaxLeaves(depth)
    ensures |AuthPath(h, leaves, i, depth)| == depth
    ensures FoldPath(h, leaves[i], AuthPath(h, leaves, i, depth)) == TreeRoot(h, depth, leaves, emptyRoot)
  {
    LevelsSingle(h, leaves, depth);
    AuthPathFolds(h, leaves, i, depth);
  }

  lemma FoldPath2<T>(h: (T, T) -> T, leaf: T, e0: (bool, T), e1: (bool, T))
    ensures FoldPath(h, leaf, [e0, e1]) == Step(h, Step(h, leaf, e0), e1)
  {
    var s1 := Step(h, leaf, e0);
    assert [e0, e1][1..] == [e1];
    assert FoldPath(h, leaf, [e0, e1]) == FoldPath(h, s1, [e1]);
    assert [e1][1..] == [];
    assert FoldPath(h, s1, [e1]) == FoldPath(h, Step(h, s1, e1), []);
  }

  lemma FoldPath4<T>(h: (T, T) -> T, leaf: T, e0: (bool, T), e1: (bool, T), e2: (bool, T), e3: (bool, T))
    ensures FoldPath(h, leaf, [e0, e1, e2, e3]) == Step(h, Step(h, Step(h, Step(h, leaf, e0), e1), e2), e3)
  {
    var s1 := Step(h, leaf, e0);
    var s2 := Step(h, s1, e1);
    assert [e0, e1, e2, e3][1..] == [e1, e2, e3];
    assert FoldPath(h, leaf, [e0, e1, e2, e3]) == FoldPath(h, s1, [e1, e2, e3]);
    assert [e1, e2, e3][1..] == [e2, e3];
    assert FoldPath(h, s1, [e1, e2, e3]) == FoldPath(h, s2, [e2, e3]);
    FoldPath2(h, s2, e2, e3);
  }

  /** The capacities the tests exercise: one member at depth 1, fifteen at depth 4. */
  lemma CapacityExamples()
    ensures MaxLeaves(1) == 1 && MaxLeaves(4) == 15 && MaxLeaves(2) == 3
  {
  }

  ghost predicate Injective<T(!new)>(h: (T, T) -> T)
  {
    forall a, b, c, d :: h(a, b) == h(c, d) ==> a == c && b == d
  }

  // ---------------------------------------------------------------------------
  // Worked traces

  /** Depth 2: the roots after one, two and three members. */
  lemma Depth2Trace<T>(h: (T, T) -> T, e: T, k0: T, k1: T, k2: T)
    ensures TreeRoot(h, 2, [k0], e) == h(h(k0, k0), h(k0, k0))
    ensures TreeRoot(h, 2, [k0, k1], e) == h(h(k0, k1), h(k0, k1))
    ensures TreeRoot(h, 2, [k0, k1, k2], e) == h(h(k0, k1), h(k2, k2))
  {
    assert Levels(h, [k0], 2) == Layer(h, Layer(h, [k0]));
    assert Levels(h, [k0, k1], 2) == Layer(h, Layer(h, [k0, k1]));
    assert Levels(h, [k0, k1, k2], 2) == Layer(h, Layer(h, [k0, k1, k2]));
    assert Layer(h, [k0]) == [h(k0, k0)];
    assert Layer(h, [h(k0, k0)]) == [h(h(k0, k0), h(k0, k0))];
    assert Layer(h, [k0, k1]) == [h(k0, k1)];
    assert Layer(h, [h(k0, k1)]) == [h(h(k0, k1), h(k0, k1))];
    assert Layer(h, [k0, k1, k2]) == [h(k0, k1), h(k2, k2)];
    assert Layer(h, [h(k0, k1), h(k2, k2)]) == [h(h(k0, k1), h(k2, k2))];
  }

  /** The level-1 nodes of the fifteen-member depth-4 tree. */
  function Level1<T>(h: (T, T) -> T, ks: seq<T>): (r: seq<T>)
    requires |ks| == 15
    ensures |r| == 8
  {
    [h(ks[0], ks[1]), h(ks[2], ks[3]), h(ks[4], ks[5]), h(ks[6], ks[7]),
     h(ks[8], ks[9]), h(ks[10], ks[11]), h(ks[12], ks[13]), h(ks[14], ks[14])]
  }

  function Level2<T>(h: (T, T) -> T, ks: seq<T>): (r: seq<T>)
    requires |ks| == 15
    ensures |r| == 4
  {
    var n1 := Level1(h, ks);
    [h(n1[0], n1[1]), h(n1[2], n1[3]), h(n1[4], n1[5]), h(n1[6], n1[7])]
  }

  function Level3<T>(h: (T, T) -> T, ks: seq<T>): (r: seq<T>)
    requires |ks| == 15
    ensures |r| == 2
  {
    var n2 := Level2(h, ks);
    [h(n2[0], n2[1]), h(n2[2], n2[3])]
  }

  /** Depth 4 with fifteen members: the root is built level by level, the last leaf paired with itself. */
  lemma Depth4Root<T>(h: (T, T) -> T, e: T, ks: seq<T>)
    requires |ks| == 15
    ensures TreeRoot(h, 4, ks, e) == h(Level3(h, ks)[0], Level3(h, ks)[1])
  {
    var n1, n2, n3 := Level1(h, ks), Level2(h, ks), Level3(h, ks);
    Level1IsLayer(h, ks);
    Level2IsLayer(h, ks);
    Level3IsLayer(h, ks);
    LevelsUnfold(h, ks, 4);
    LevelsUnfold(h, n1, 3);
    LevelsUnfold(h, n2, 2);
    LevelsUnfold(h, n3, 1);
    assert Layer(h, n3) == [h(n3[0], n3[1])];
  }

  lemma Level2IsLayer<T>(h: (T, T) -> T, ks: seq<T>)
    requires |ks| == 15
    ensures Layer(h, Level1(h, ks)) == Level2(h, ks)
  {
  }

  lemma Level3IsLayer<T>(h: (T, T) -> T, ks: seq<T>)
    requires |ks| == 15
    ensures Layer(h, Level2(h, ks)) == Level3(h, ks)
  {
  }

  lemma LevelsUnfold<T>(h: (T, T) -> T, nodes: seq<T>, k: nat)
    requires k > 0
    ensures Levels(h, nodes, k) == Levels(h, Layer(h, nodes), k - 1)
  {
  }

  lemma Level1IsLayer<T>(h: (T, T) -> T, ks: seq<T>)
    requires |ks| == 15
    ensures Layer(h, ks) == Level1(h, ks)
  {
    var up, n1 := Layer(h, ks), Level1(h, ks);
    assert up[7] == n1[7];
    forall j | 0 <= j < 7 ensures up[j] == n1[j] {
      assert 2 * j + 1 < 15;
    }
  }

  /** The four membership paths of the depth-4 test fold to the root. */
  lemma Depth4Paths<T>(h: (T, T) -> T, e: T, ks: seq<T>)
    requires |ks| == 15
    ensures var n1, n2, n3 := Level1(h, ks), Level2(h, ks), Level3(h, ks);
      && FoldPath(h, ks[0], [(true, ks[1]), (true, n1[1]), (true, n2[1]), (true, n3[1])]) == TreeRoot(h, 4, ks, e)
      && FoldPath(h, ks[4], [(true, ks[5]), (true, n1[3]), (false, n2[0]), (true, n3[1])]) == TreeRoot(h, 4, ks, e)
      && FoldPath(h, ks[10], [(true, ks[11]), (false, n1[4]), (true, n2[3]), (false, n3[0])]) == TreeRoot(h, 4, ks, e)
      && FoldPath(h, ks[14], [(false, ks[14]), (false, n1[6]), (false, n2[2]), (false, n3[0])]) == TreeRoot(h, 4, ks, e)
  {
    Depth4Root(h, e, ks);
    var n1, n2, n3 := Level1(h, ks), Level2(h, ks), Level3(h, ks);
    FoldPath4(h, ks[0], (true, ks[1]), (true, n1[1]), (true, n2[1]), (true, n3[1]));
    FoldPath4(h, ks[4], (true, ks[5]), (true, n1[3]), (false, n2[0]), (true, n3[1]));
    FoldPath4(h, ks[10], (true, ks[11]), (false, n1[4]), (true, n2[3]), (false, n3[0]));
    FoldPath4(h, ks[14], (false, ks[14]), (false, n1[6]), (false, n2[2]), (false, n3[0]));
  }

  /**
    The three tampered depth-2 paths of the tests (a wrong flag, a wrong
    sibling) are rejected, for a hash without collisions and distinct members.
   */
  lemma TamperedPathsFail<T(!new)>(h: (T, T) -> T, e: T, k0: T, k1: T, k2: T)
    requires Injective(h)
    requires k0 != k1 && k1 != k2 && k0 != k2
    ensures var root := TreeRoot(h, 2, [k0, k1, k2], e);
      && FoldPath(h, k0, [(false, k1), (true, h(k2, k2))]) != root
      && FoldPath(h, k0, [(true, k1), (false, h(k2, k2))]) != root
      && FoldPath(h, k0, [(true, k2), (true, h(k0, k1))]) != root
  {
    Depth2Trace(h, e, k0, k1, k2);
    FoldPath2(h, k0, (false, k1), (true, h(k2, k2)));
    FoldPath2(h, k0, (true, k1), (false, h(k2, k2)));
    FoldPath2(h, k0, (true, k2), (true, h(k0, k1)));
  }

  // ---------------------------------------------------------------------------
  // The pallet storage

  /** A stored group is consistent: a valid depth, within capacity, and its root is the root of its members. */
  ghost predicate GroupValid<T>(h: (T, T) -> T, emptyRoot: T, g: Group<T>)
  {
    && ValidDepth(g.depth)
    && |g.leaves| <= MaxLeaves(g.depth)
    && g.rootHash == TreeRoot(h, g.depth, g.leaves, emptyRoot)
  }

  class MerkleGroups<T(==)> {
    /** `hash_leaves`. */
    const hash: (T, T) -> T
    /** The root of a group with no members. */
    const emptyRoot: T
    var groups: map<nat, Group<T>>

    ghost predicate Valid()
      reads this
    {
      forall id :: id in groups ==> GroupValid(hash, emptyRoot, groups[id])
    }

    constructor(hash: (T, T) -> T, emptyRoot: T)
      ensures this.hash == hash && this.emptyRoot == emptyRoot
      ensures groups == map[]
      ensures Valid()
    {
      this.hash := hash;
      this.emptyRoot := emptyRoot;
      groups := map[];
    }

    /** `create_group`: a fresh id and a depth between 1 and 32 give an empty group. */
    method CreateGroup(id: nat, depth: nat) returns (r: Result<(), Error>)
      requires Valid()
      modifies this
      ensures Valid()
      ensures id in old(groups) ==> r == Err(GroupAlreadyExists) && groups == old(groups)
      ensures id !in old(groups) && !ValidDepth(depth) ==> r == Err(InvalidTreeDepth) && groups == old(groups)
      ensures id !in old(groups) && ValidDepth(depth) ==>
        r == Ok(()) && groups == old(groups)[id := Group(depth, [], emptyRoot)]
    {
      if id in groups {
        return Err(GroupAlreadyExists);
      }
      if !(1 <= depth && depth <= MaxTreeDepth) {
        return Err(InvalidTreeDepth);
      }
      groups := groups[id := Group(depth, [], emptyRoot)];
      r := Ok(());
    }

    /** `add_member`: append a leaf to a group that is not full and recompute its root. */
    method AddMember(id: nat, leaf: T) returns (r: Result<(), Error>)
      requires Valid()
      modifies this
      ensures Valid()
      ensures id !in old(groups) ==> r == Err(GroupNotFound) && groups == old(groups)
      ensures id in old(groups) && |old(groups)[id].leaves| >= MaxLeaves(old(groups)[id].depth) ==>
        r == Err(ExceededMaxDepth) && groups == old(groups)
      ensures id in old(groups) && |old(groups)[id].leaves| < MaxLeaves(old(groups)[id].depth) ==>
        var g := old(groups)[id];
        r == Ok(()) && groups == old(groups)[id := Group(g.depth, g.leaves + [leaf], TreeRoot(hash, g.depth, g.leaves + [leaf], emptyRoot))]
    {
      if id !in groups {
        return Err(GroupNotFound);
      }
      var g := groups[id];
      if |g.leaves| >= MaxLeaves(g.depth) {
        return Err(ExceededMaxDepth);
      }
      var leaves := g.leaves + [leaf];
      groups := groups[id := Group(g.depth, leaves, TreeRoot(hash, g.depth, leaves, emptyRoot))];
      r := Ok(());
    }

    /** `verify`: the path length must be the depth; then the folded path must reach the stored root. */
    function Verify(id: nat, leaf: T, path: seq<(bool, T)>): (r: Result<(), Error>)
      reads this
      ensures id !in groups ==> r == Err(GroupNotFound)
      ensures id in groups && |path| != groups[id].depth ==> r == Err(InvalidPathLength)
      ensures id in groups && |path| == groups[id].depth ==>
        (r == Ok(()) <==> FoldPath(hash, leaf, path) == groups[id].rootHash)
      ensures id in groups && |path| == groups[id].depth && FoldPath(hash, leaf, path) != groups[id].rootHash ==>
        r == Err(InvalidProof)
      ensures r.Err? ==> r.error in {GroupNotFound, InvalidPathLength, InvalidProof}
    {
      if id !in groups then Err(GroupNotFound)
      else if |path| != groups[id].depth then Err(InvalidPathLength)
      else if FoldPath(hash, leaf, path) != groups[id].rootHash then Err(InvalidProof)
      else Ok(())
    }

    /** Every member of a stored group verifies with its authentication path. */
    lemma MembersVerify(id: nat, i: nat)
      requires Valid()
      requires id in groups && i < |groups[id].leaves|
      ensures Verify(id, groups[id].leaves[i], AuthPath(hash, groups[id].leaves, i, groups[id].depth)) == Ok(())
    {
      var g := groups[id];
      assert GroupValid(hash, emptyRoot, g);
      MemberPathFolds(hash, g.depth, g.leaves, emptyRoot, i);
    }
  }

  // ---------------------------------------------------------------------------
  // The unit-test scenarios, on fresh storage

  /** Depths 0 and 33 are rejected; 1 and 32 are accepted. */
  method DepthBoundsScenario<T(==)>(h: (T, T) -> T, e: T) returns (r0: Result<(), Error>, r1: Result<(), Error>, r32: Result<(), Error>, r33: Result<(), Error>)
    ensures r0 == Err(InvalidTreeDepth) && r33 == Err(InvalidTreeDepth)
    ensures r1 == Ok(()) && r32 == Ok(())
    ensures Message(r0.error) == "Invalid tree depth." && Message(r33.error) == "Invalid tree depth."
  {
    var s := new MerkleGroups(h, e);
    r0 := s.CreateGroup(0, 0);
    r33 := s.CreateGroup(0, 33);
    r1 := s.CreateGroup(0, 1);
    r32 := s.CreateGroup(1, 32);
  }

  /** A second group with the same id is refused. */
  method DuplicateIdScenario<T(==)>(h: (T, T) -> T, e: T) returns (first: Result<(), Error>, second: Result<(), Error>)
    ensures first == Ok(()) && second == Err(GroupAlreadyExists)
    ensures Message(second.error) == "Group already exists."
  {
    var s := new MerkleGroups(h, e);
    first := s.CreateGroup(0, 3);
    second := s.CreateGroup(0, 3);
  }

  /** A depth-1 group takes one member and refuses the second. */
  method MinDepthScenario<T(==)>(h: (T, T) -> T, e: T, k: T) returns (first: Result<(), Error>, second: Result<(), Error>)
    ensures first == Ok(()) && second == Err(ExceededMaxDepth)
    ensures Message(second.error) == "Exceeded maximum tree depth."
  {
    var s := new MerkleGroups(h, e);
    var created := s.CreateGroup(0, 1);
    first := s.AddMember(0, k);
    second := s.AddMember(0, k);
  }

  /** The stored root after each of three insertions into a depth-2 group. */
  method RootAfterInsertionScenario<T(==)>(h: (T, T) -> T, e: T, k0: T, k1: T, k2: T) returns (root1: T, root2: T, root3: T)
    ensures root1 == h(h(k0, k0), h(k0, k0))
    ensures root2 == h(h(k0, k1), h(k0, k1))
    ensures root3 == h(h(k0, k1), h(k2, k2))
  {
    Depth2Trace(h, e, k0, k1, k2);
    var s := new MerkleGroups(h, e);
    var created := s.CreateGroup(0, 2);
    var added := s.AddMember(0, k0);
    root1 := s.groups[0].rootHash;
    added := s.AddMember(0, k1);
    root2 := s.groups[0].rootHash;
    added := s.AddMember(0, k2);
    root3 := s.groups[0].rootHash;
  }

  /** Appends `ks` one by one to a group with room for them, as the tests' insertion loops do. */
  method AddMembers<T(==)>(s: MerkleGroups<T>, id: nat, ks: seq<T>)
    requires s.Valid() && id in s.groups
    requires |s.groups[id].leaves| + |ks| <= MaxLeaves(s.groups[id].depth)
    modifies s
    ensures s.Valid()
    ensures var g := old(s.groups[id]);
      s.groups == old(s.groups)[id := Group(g.depth, g.leaves + ks, TreeRoot(s.hash, g.depth, g.leaves + ks, s.emptyRoot))]
  {
    ghost var g := s.groups[id];
    ghost var before := s.groups;
    assert g.leaves + ks[..0] == g.leaves;
    assert GroupValid(s.hash, s.emptyRoot, g);
    for i := 0 to |ks|
      invariant s.Valid()
      invariant s.groups == before[id := Group(g.depth, g.leaves + ks[..i], TreeRoot(s.hash, g.depth, g.leaves + ks[..i], s.emptyRoot))]
    {
      AddNext(s, id, before, g, ks, i);
    }
    assert ks[..|ks|] == ks;
  }

  /** One step of `AddMembers`: member `i` of `ks` joins the group, which has room for all of `ks`. */
  method AddNext<T(==)>(s: MerkleGroups<T>, id: nat, ghost before: map<nat, Group<T>>, ghost g: Group<T>, ks: seq<T>, i: nat)
    requires s.Valid() && i < |ks| && |g.leaves| + |ks| <= MaxLeaves(g.depth)
    requires s.groups == before[id := Group(g.depth, g.leaves + ks[..i], TreeRoot(s.hash, g.depth, g.leaves + ks[..i], s.emptyRoot))]
    modifies s
    ensures s.Valid()
    ensures s.groups == before[id := Group(g.depth, g.leaves + ks[..i + 1], TreeRoot(s.hash, g.depth, g.leaves + ks[..i + 1], s.emptyRoot))]
  {
    ghost var current, next := g.leaves + ks[..i], g.leaves + ks[..i + 1];
    assert current + [ks[i]] == next;
    assert s.groups[id] == Group(g.depth, current, TreeRoot(s.hash, g.depth, current, s.emptyRoot));
    assert |current| < MaxLeaves(g.depth);
    var added := s.AddMember(id, ks[i]);
  }

  /** Fifteen members fill a depth-4 group; the root and the four test paths check out, and a sixteenth member is refused. */
  method FifteenMembersScenario<T(==)>(h: (T, T) -> T, e: T, ks: seq<T>) returns (root: T, proofs: seq<Result<(), Error>>, extra: Result<(), Error>)
    requires |ks| == 15
    ensures root == h(Level3(h, ks)[0], Level3(h, ks)[1])
    ensures proofs == [Ok(()), Ok(()), Ok(()), Ok(())]
    ensures extra == Err(ExceededMaxDepth)
  {
    var s := new MerkleGroups(h, e);
    var created := s.CreateGroup(0, 4);
    CapacityExamples();
    AddMembers(s, 0, ks);
    assert [] + ks == ks;
    assert s.groups[0] == Group(4, ks, TreeRoot(h, 4, ks, e));
    root := s.groups[0].rootHash;
    Depth4Root(h, e, ks);
    proofs := VerifyTestPaths(s, ks);
    extra := s.AddMember(0, ks[0]);
  }

  /** With the fifteen test members stored in group 0 at depth 4, `verify` accepts the four paths of the test. */
  method VerifyTestPaths<T(==)>(s: MerkleGroups<T>, ks: seq<T>) returns (proofs: seq<Result<(), Error>>)
    requires |ks| == 15 && 0 in s.groups && s.groups[0] == Group(4, ks, TreeRoot(s.hash, 4, ks, s.emptyRoot))
    ensures proofs == [Ok(()), Ok(()), Ok(()), Ok(())]
  {
    Depth4Paths(s.hash, s.emptyRoot, ks);
    var n1, n2, n3 := Level1(s.hash, ks), Level2(s.hash, ks), Level3(s.hash, ks);
    var p0 := s.Verify(0, ks[0], [(true, ks[1]), (true, n1[1]), (true, n2[1]), (true, n3[1])]);
    var p4 := s.Verify(0, ks[4], [(true, ks[5]), (true, n1[3]), (false, n2[0]), (true, n3[1])]);
    var p10 := s.Verify(0, ks[10], [(true, ks[11]), (false, n1[4]), (true, n2[3]), (false, n3[0])]);
    var p14 := s.Verify(0, ks[14], [(false, ks[14]), (false, n1[6]), (false, n2[2]), (false, n3[0])]);
    proofs := [p0, p4, p10, p14];
  }

  /** Paths of length 1 and 3 against a depth-2 group are refused for their length, whatever they contain. */
  method PathLengthScenario<T(==)>(h: (T, T) -> T, e: T, k0: T, k1: T, k2: T) returns (short: Result<(), Error>, long: Result<(), Error>)
    ensures short == Err(InvalidPathLength) && long == Err(InvalidPathLength)
    ensures Message(short.error) == "Invalid path length."
  {
    var s := new MerkleGroups(h, e);
    var created := s.CreateGroup(0, 2);
    var added := s.AddMember(0, k0);
    added := s.AddMember(0, k1);
    added := s.AddMember(0, k2);
    short := s.Verify(0, k0, [(true, k0)]);
    long := s.Verify(0, k0, [(true, k0), (false, k1), (true, k2)]);
  }

  /** The tampered paths of the tests are refused as invalid proofs. */
  method InvalidProofScenario<T(==, !new)>(h: (T, T) -> T, e: T, k0: T, k1: T, k2: T)
    returns (wrongFlag: Result<(), Error>, wrongTop: Result<(), Error>, wrongSibling: Result<(), Error>)
    requires Injective(h)
    requires k0 != k1 && k1 != k2 && k0 != k2
    ensures wrongFlag == Err(InvalidProof) && wrongTop == Err(InvalidProof) && wrongSibling == Err(InvalidProof)
    ensures Message(wrongFlag.error) == "Invalid proof."
  {
    TamperedPathsFail(h, e, k0, k1, k2);
    var s := new MerkleGroups(h, e);
    var created := s.CreateGroup(0, 2);
    CapacityExamples();
    AddMembers(s, 0, [k0, k1, k2]);
    assert s.groups[0] == Group(2, [k0, k1, k2], TreeRoot(h, 2, [k0, k1, k2], e));
    wrongFlag := s.Verify(0, k0, [(false, k1), (true, h(k2, k2))]);
    wrongTop := s.Verify(0, k0, [(true, k1), (false, h(k2, k2))]);
    wrongSibling := s.Verify(0, k0, [(true, k2), (true, h(k0, k1))]);
  }
}
