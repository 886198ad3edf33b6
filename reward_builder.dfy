/**
  The builder of the time-based reward gadget: three optional settings
  (tree depth, Poseidon parameters, sparse Merkle tree), each filled in by a
  setter, and a `build` that uses every supplied value and a default for each
  missing one.

  The Poseidon parameter builder, the gadgets crate's round-key and MDS
  generators and the sparse Merkle tree constructor are not part of this
  model: they are passed in as `Collaborators`, with the Poseidon parameters
  and the tree as type parameters `HP` and `Tree`.
 */
module RewardBuilder {
  import opened Wrappers

  /** The S-box `build` selects; the crate offers others, which `build` never uses. */
  datatype PoseidonSbox = Inverse

  /**
    The arguments `build` hands to the Poseidon parameter builder: the width,
    the full rounds at the beginning and at the end, the partial rounds, the
    (width, rounds) round keys are generated for, the width of the MDS
    matrix and the S-box.
   */
  datatype PoseidonSettings = PoseidonSettings(
    width: nat,
    fullRoundsBeginning: nat,
    fullRoundsEnd: nat,
    partialRounds: nat,
    roundKeysFor: (nat, nat),
    mdsWidth: nat,
    sbox: PoseidonSbox)

  /** The parameters `build` generates when none were supplied. */
  function DefaultSettings(): (s: PoseidonSettings)
    ensures s.width == 6 && s.fullRoundsBeginning == 4 && s.fullRoundsEnd == 4 && s.partialRounds == 57
    ensures s.roundKeysFor == (s.width, s.fullRoundsBeginning + s.fullRoundsEnd + s.partialRounds) == (6, 65)
    ensures s.mdsWidth == s.width && s.sbox == Inverse
  {
    var width, fullB, fullE, partialRounds := 6, 4, 4, 57;
    PoseidonSettings(width, fullB, fullE, partialRounds, (width, fullB + fullE + partialRounds), width, Inverse)
  }

  /** The code `build` calls but this model does not see. */
  datatype Collaborators<!HP, Tree> = Collaborators(
    defaultTreeDepth: nat,
    buildPoseidon: PoseidonSettings -> HP,
    newTree: (HP, nat) -> Tree)

  datatype RewardGadget<HP, Tree> = RewardGadget(depth: nat, hashParams: HP, tree: Tree)

  /** The gadget `build` makes from the builder's three optional settings. */
  function Resolve<HP, Tree>(depth: Option<nat>, hashParams: Option<HP>, tree: Option<Tree>, c: Collaborators<HP, Tree>)
    : (g: RewardGadget<HP, Tree>)
    ensures depth.Some? ==> g.depth == depth.value
    ensures depth.None? ==> g.depth == c.defaultTreeDepth
    ensures hashParams.Some? ==> g.hashParams == hashParams.value
    ensures hashParams.None? ==> g.hashParams == c.buildPoseidon(DefaultSettings())
    ensures tree.Some? ==> g.tree == tree.value
    ensures tree.None? ==> g.tree == c.newTree(g.hashParams, g.depth)
  {
    var d := if depth.Some? then depth.value else c.defaultTreeDepth;
    var hp := if hashParams.Some? then hashParams.value else c.buildPoseidon(DefaultSettings());
    var t := if tree.Some? then tree.value else c.newTree(hp, d);
    RewardGadget(d, hp, t)
  }

  /** With nothing supplied, `build` uses the default depth, the default parameters, and a new tree made from both. */
  lemma AllDefaults<HP, Tree>(c: Collaborators<HP, Tree>)
    ensures var hp := c.buildPoseidon(DefaultSettings());
      Resolve(None, None, None, c) == RewardGadget(c.defaultTreeDepth, hp, c.newTree(hp, c.defaultTreeDepth))
  {
  }

  /**
    A supplied tree is used as it is, whatever the depth and the parameters:
    nothing checks that it was built with them.
   */
  lemma SuppliedTreeUnchecked<HP, Tree>(depth: nat, hashParams: HP, tree: Tree, c: Collaborators<HP, Tree>)
    ensures Resolve(Some(depth), Some(hashParams), Some(tree), c) == RewardGadget(depth, hashParams, tree)
    ensures Resolve(None, None, Some(tree), c).tree == tree
  {
  }

  class RewardGadgetBuilder<HP, Tree> {
    var depth: Option<nat>
    var hashParams: Option<HP>
    var tree: Option<Tree>

    /** `new`: nothing is set. */
    constructor()
      ensures depth == None && hashParams == None && tree == None
    {
      depth := None;
      hashParams := None;
      tree := None;
    }

    /** `depth`: sets the depth only, and returns the same builder. */
    method Depth(d: nat) returns (self: RewardGadgetBuilder<HP, Tree>)
      modifies this
      ensures depth == Some(d)
      ensures hashParams == old(hashParams) && tree == old(tree)
      ensures self == this
    {
      depth := Some(d);
      self := this;
    }

    /** `hash_params`: sets the Poseidon parameters only, and returns the same builder. */
    method HashParams(hp: HP) returns (self: RewardGadgetBuilder<HP, Tree>)
      modifies this
      ensures hashParams == Some(hp)
      ensures depth == old(depth) && tree == old(tree)
      ensures self == this
    {
      hashParams := Some(hp);
      self := this;
    }

    /** `merkle_tree`: sets the tree only, and returns the same builder. */
    method MerkleTree(t: Tree) returns (self: RewardGadgetBuilder<HP, Tree>)
      modifies this
      ensures tree == Some(t)
      ensures depth == old(depth) && hashParams == old(hashParams)
      ensures self == this
    {
      tree := Some(t);
      self := this;
    }

    /**
      `build` only reads the builder, so it leaves it unchanged and gives the
      same gadget each time: every supplied setting is used as is, a missing
      depth is the configured default, missing parameters are generated from
      the default settings, and a missing tree is built for the gadget's
      parameters and depth.
     */
    function Build(c: Collaborators<HP, Tree>): (g: RewardGadget<HP, Tree>)
      reads this
      ensures g.depth == if depth.Some? then depth.value else c.defaultTreeDepth
      ensures g.hashParams == if hashParams.Some? then hashParams.value else c.buildPoseidon(DefaultSettings())
      ensures g.tree == if tree.Some? then tree.value else c.newTree(g.hashParams, g.depth)
    {
      Resolve(depth, hashParams, tree, c)
    }
  }

  /** A builder given only a depth: the gadget has that depth, the default parameters, and a tree built for both. */
  method DepthOnlyScenario<HP, Tree>(c: Collaborators<HP, Tree>, d: nat) returns (g: RewardGadget<HP, Tree>)
    ensures g.depth == d
    ensures g.hashParams == c.buildPoseidon(DefaultSettings())
    ensures g.tree == c.newTree(c.buildPoseidon(DefaultSettings()), d)
  {
    var b := new RewardGadgetBuilder<HP, Tree>();
    var same := b.Depth(d);
    g := same.Build(c);
  }

  /** Setters chain on one builder, and a later setter leaves the earlier settings alone. */
  method ChainedScenario<HP, Tree>(c: Collaborators<HP, Tree>, d: nat, hp: HP, t: Tree) returns (g: RewardGadget<HP, Tree>)
    ensures g == RewardGadget(d, hp, t)
  {
    var b := new RewardGadgetBuilder<HP, Tree>();
    var b1 := b.Depth(d);
    var b2 := b1.HashParams(hp);
    var b3 := b2.MerkleTree(t);
    g := b3.Build(c);
  }
}
