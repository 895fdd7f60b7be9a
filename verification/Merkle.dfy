/**
  The Merkle tree with canonical sibling order of src/api/audit-verify.ts.
*/
module Merkle {
  import opened Wrappers
  import opened Bitwise

  datatype Direction = Left | Right

  /** One step of an inclusion proof; the sibling is absent where the source
      reads past the end of a layer. */
  datatype ProofStep = ProofStep(direction: Direction, hash: Option<string>)

  const DIGEST_LENGTH: nat := 64

  function Blank(): (s: string)
    ensures |s| == DIGEST_LENGTH
  {
    seq(64, _ => '0')
  }

  /** SHA-256 in hexadecimal is some function with 64-character results. */
  type Hash = h: string -> string | forall s :: |h(s)| == DIGEST_LENGTH witness (_ => Blank())

  /** JavaScript's `<` on strings. */
  predicate Less(a: string, b: string)
    decreases |a|
  {
    b != [] && (a == [] || a[0] < b[0] || (a[0] == b[0] && Less(a[1..], b[1..])))
  }

  /** The canonically ordered concatenation that is hashed into a parent. */
  function Joined(left: string, right: string): string {
    if Less(left, right) then left + right else right + left
  }

  function Parent(h: Hash, left: string, right: string): string {
    h(Joined(left, right))
  }

  /** The layer above: parents of pairs, a last unpaired node being paired with itself. */
  function Above(h: Hash, layer: seq<string>): (next: seq<string>)
    ensures |next| == (|layer| + 1) / 2
  {
    seq((|layer| + 1) / 2, j requires 0 <= j < (|layer| + 1) / 2 =>
      Parent(h, layer[2 * j], if 2 * j + 1 < |layer| then layer[2 * j + 1] else layer[2 * j]))
  }

  lemma AboveAt(h: Hash, layer: seq<string>, j: nat)
    requires 2 * j < |layer|
    ensures j < |Above(h, layer)|
    ensures Above(h, layer)[j] ==
            Parent(h, layer[2 * j], if 2 * j + 1 < |layer| then layer[2 * j + 1] else layer[2 * j])
  {
  }

  /** The layers of the tree over `leaves`, from the leaves up. */
  function Layers(h: Hash, leaves: seq<string>): (layers: seq<seq<string>>)
    ensures |layers| > 0 && layers[0] == leaves
    decreases |leaves|
  {
    if |leaves| <= 1 then [leaves] else [leaves] + Layers(h, Above(h, leaves))
  }

  function Root(h: Hash, leaves: seq<string>): Option<string>
    decreases |leaves|
  {
    if leaves == [] then None
    else if |leaves| == 1 then Some(leaves[0])
    else Root(h, Above(h, leaves))
  }

  method NextLayer(h: Hash, current: seq<string>) returns (next: seq<string>)
    ensures next == Above(h, current)
  {
    hide Parent, Above;
    next := [];
    var i := 0;
    while i < |current|
      invariant 0 <= i <= |current| + 1 && i == 2 * |next|
      invariant |next| <= |Above(h, current)|
      invariant forall j :: 0 <= j < |next| ==> next[j] == Above(h, current)[j]
    {
      AboveAt(h, current, |next|);
      var left := current[i];
      var right := if i + 1 < |current| then current[i + 1] else current[i];
      next := next + [Parent(h, left, right)];
      i := i + 2;
    }
  }

  lemma LayersUnfold(h: Hash, current: seq<string>)
    requires |current| > 1
    ensures Layers(h, current)[1..] == Layers(h, Above(h, current))
    ensures Root(h, current) == Root(h, Above(h, current))
  {
    hide Above;
  }

  lemma FirstThenRest(before: seq<seq<string>>, layers: seq<seq<string>>)
    requires layers != []
    ensures before + layers == before + [layers[0]] + layers[1..]
  {
  }

  lemma LayersStep(h: Hash, before: seq<seq<string>>, current: seq<string>)
    requires |current| > 1
    ensures before + Layers(h, current)[1..] == before + [Above(h, current)] + Layers(h, Above(h, current))[1..]
    ensures Root(h, current) == Root(h, Above(h, current))
  {
    hide Above, Layers, Root;
    LayersUnfold(h, current);
    FirstThenRest(before, Layers(h, Above(h, current)));
  }

  lemma LayersEnd(h: Hash, before: seq<seq<string>>, current: seq<string>)
    requires |current| <= 1
    ensures before + Layers(h, current)[1..] == before
    ensures Root(h, current) == if current == [] then None else Some(current[0])
  {
  }

  method BuildMerkleTree(h: Hash, leaves: seq<string>) returns (root: Option<string>, layers: seq<seq<string>>)
    ensures root == Root(h, leaves) && layers == Layers(h, leaves)
  {
    hide Above, Layers, Root;
    layers := [leaves];
    var current := leaves;
    assert Layers(h, leaves) == [leaves] + Layers(h, leaves)[1..];
    while |current| > 1
      invariant layers + Layers(h, current)[1..] == Layers(h, leaves)
      invariant Root(h, current) == Root(h, leaves)
      decreases |current|
    {
      LayersStep(h, layers, current);
      current := NextLayer(h, current);
      layers := layers + [current];
    }
    LayersEnd(h, layers, current);
    root := if current == [] then None else Some(current[0]);
  }

  // ---- proofs --------------------------------------------------------------------

  function At(layer: seq<string>, i: int): Option<string> {
    if 0 <= i < |layer| then Some(layer[i]) else None
  }

  /** The sibling of position idx; the position itself when it has none. */
  function SiblingOf(layer: seq<string>, idx: nat): Option<string> {
    var sibling := At(layer, if idx % 2 == 1 then idx - 1 else idx + 1);
    if sibling.Some? then sibling else At(layer, idx)
  }

  /** The proof read off the given layers, one step a layer except the last. */
  function ProofOver(layers: seq<seq<string>>, idx: nat): (proof: seq<ProofStep>)
    ensures |proof| == if layers == [] then 0 else |layers| - 1
  {
    if |layers| <= 1 then []
    else [ProofStep(if idx % 2 == 1 then Left else Right, SiblingOf(layers[0], idx))]
         + ProofOver(layers[1..], idx / 2)
  }

  lemma ProofOverStep(layers: seq<seq<string>>, level: nat, idx: nat)
    requires level < |layers| - 1
    ensures ProofOver(layers[level..], idx) ==
            [ProofStep(if idx % 2 == 1 then Left else Right, SiblingOf(layers[level], idx))]
            + ProofOver(layers[level + 1..], idx / 2)
  {
    assert layers[level..][1..] == layers[level + 1..];
  }

  lemma ProofOverEnd(layers: seq<seq<string>>, idx: nat)
    requires |layers| <= 1
    ensures ProofOver(layers, idx) == []
  {
  }

  method GetMerkleProof(leaves: seq<string>, targetIndex: nat, layers: seq<seq<string>>)
    returns (proof: seq<ProofStep>)
    ensures proof == ProofOver(layers, targetIndex)
  {
    hide ProofOver;
    assert layers[0..] == layers;
    proof := [];
    var idx, level := targetIndex, 0;
    while level < |layers| - 1
      invariant 0 <= level <= |layers|
      invariant proof + ProofOver(layers[level..], idx) == ProofOver(layers, targetIndex)
    {
      ProofOverStep(layers, level, idx);
      var layer := layers[level];
      var isRight := idx % 2 == 1;
      var siblingIdx := if isRight then idx - 1 else idx + 1;
      var sibling := At(layer, siblingIdx);
      sibling := if sibling.Some? then sibling else At(layer, idx);
      proof := proof + [ProofStep(if isRight then Left else Right, sibling)];
      idx, level := idx / 2, level + 1;
    }
    ProofOverEnd(layers[level..], idx);
  }

  /** The position above idx, k layers up. */
  function Ancestor(idx: nat, k: nat): nat {
    if k == 0 then idx else Ancestor(idx / 2, k - 1)
  }

  /** What a proof says of the node at position j of a layer: a right child's sibling stands on the
      left; that of a left child on the right, or it is its own sibling at an odd end. */
  predicate Sides(layer: seq<string>, j: nat, step: ProofStep) {
    && j < |layer|
    && (j % 2 == 1 ==> step == ProofStep(Left, Some(layer[j - 1])))
    && (j % 2 == 0 && j + 1 < |layer| ==> step == ProofStep(Right, Some(layer[j + 1])))
    && (j % 2 == 0 && j + 1 == |layer| ==> step == ProofStep(Right, Some(layer[j])))
  }

  /** Each step of a proof names the sibling on the path from the leaf, and its side. */
  lemma {:induction false} ProofStepAt(h: Hash, leaves: seq<string>, idx: nat, k: nat)
    requires idx < |leaves| && k < |Layers(h, leaves)| - 1
    ensures Sides(Layers(h, leaves)[k], Ancestor(idx, k), ProofOver(Layers(h, leaves), idx)[k])
    decreases k
  {
    hide Above, SiblingOf, ProofOver, Sides, Layers, Ancestor;
    var layers := Layers(h, leaves);
    FirstStep(h, leaves, idx);
    AncestorStep(idx, k);
    if k > 0 {
      assert layers[k] == layers[1..][k - 1];
      assert ProofOver(layers, idx)[k] == ProofOver(layers, idx)[1..][k - 1];
      ProofStepAt(h, Above(h, leaves), idx / 2, k - 1);
    }
  }

  lemma FirstStep(h: Hash, leaves: seq<string>, idx: nat)
    requires idx < |leaves| && |Layers(h, leaves)| > 1
    ensures Sides(leaves, idx, ProofOver(Layers(h, leaves), idx)[0])
    ensures Layers(h, leaves)[1..] == Layers(h, Above(h, leaves)) && idx / 2 < |Above(h, leaves)|
    ensures ProofOver(Layers(h, leaves), idx)[1..] == ProofOver(Layers(h, leaves)[1..], idx / 2)
  {
    hide Above;
  }

  lemma AncestorStep(idx: nat, k: nat)
    ensures Ancestor(idx, k) == if k == 0 then idx else Ancestor(idx / 2, k - 1)
  {
  }

  // ---- walking a proof ---------------------------------------------------------

  /** The verifier's instructions: sort, concatenate, hash, at every step. */
  function Walk(h: Hash, x: string, siblings: seq<string>): string
    decreases |siblings|
  {
    if siblings == [] then x else Walk(h, Parent(h, x, siblings[0]), siblings[1..])
  }

  /** The sibling hashes of a proof, if every step has one. */
  function Hashes(proof: seq<ProofStep>): Option<seq<string>> {
    if proof == [] then Some([])
    else
      var rest := Hashes(proof[1..]);
      if proof[0].hash.Some? && rest.Some? then Some([proof[0].hash.value] + rest.value) else None
  }

  lemma ParentComm(h: Hash, a: string, b: string)
    ensures Parent(h, a, b) == Parent(h, b, a)
  {
    LessTotal(a, b);
  }

  lemma {:induction false} LessTotal(a: string, b: string)
    ensures Less(a, b) && Less(b, a) ==> a == b
    ensures !Less(a, b) && !Less(b, a) ==> a == b
    decreases |a|
  {
    if a != [] && b != [] && a[0] == b[0] {
      LessTotal(a[1..], b[1..]);
      assert a == [a[0]] + a[1..] && b == [b[0]] + b[1..];
    }
  }

  /** a is a proper prefix of b, or has the smaller character where they first differ. */
  predicate Precedes(a: string, b: string, i: nat) {
    && i <= |a| && i <= |b| && a[..i] == b[..i]
    && if i < |a| then i < |b| && a[i] < b[i] else i < |b|
  }

  lemma {:induction false} PrecedesIsLess(a: string, b: string, i: nat)
    requires Precedes(a, b, i)
    ensures Less(a, b) && !Less(b, a)
    decreases i
  {
    if i > 0 {
      assert a[0] == a[..i][0] == b[..i][0] == b[0];
      assert a[1..][..i - 1] == a[..i][1..] && b[1..][..i - 1] == b[..i][1..];
      PrecedesIsLess(a[1..], b[1..], i - 1);
    }
  }

  /** The smaller of two nodes, character by character, is hashed first, on whichever side it is. */
  lemma SmallerFirst(h: Hash, a: string, b: string, i: nat)
    requires Precedes(a, b, i)
    ensures Parent(h, a, b) == h(a + b) && Parent(h, b, a) == h(a + b)
  {
    PrecedesIsLess(a, b, i);
  }

  /** A node paired with itself. */
  lemma PairedWithItself(h: Hash, a: string)
    ensures Parent(h, a, a) == h(a + a)
  {
  }

  lemma AboveTwo(h: Hash, a: string, b: string)
    ensures Above(h, [a, b]) == [Parent(h, a, b)]
  {
    hide Parent;
    AboveAt(h, [a, b], 0);
  }

  lemma AboveThree(h: Hash, a: string, b: string, c: string)
    ensures Above(h, [a, b, c]) == [Parent(h, a, b), Parent(h, c, c)]
  {
    hide Parent;
    AboveAt(h, [a, b, c], 0);
    AboveAt(h, [a, b, c], 1);
  }

  lemma RootOfTwo(h: Hash, a: string, b: string)
    ensures Root(h, [a, b]) == Some(Parent(h, a, b))
  {
    hide Parent, Above;
    AboveTwo(h, a, b);
    LayersUnfold(h, [a, b]);
  }

  /** Three leaves: the first two are paired, the last with itself, and then both parents. */
  lemma RootOfThree(h: Hash, a: string, b: string, c: string)
    ensures Root(h, [a, b, c]) == Some(Parent(h, Parent(h, a, b), h(c + c)))
  {
    hide Parent, Above, Root, Layers;
    PairedWithItself(h, c);
    AboveThree(h, a, b, c);
    LayersUnfold(h, [a, b, c]);
    RootOfTwo(h, Parent(h, a, b), h(c + c));
  }

  lemma ParentAbove(h: Hash, layer: seq<string>, idx: nat)
    requires idx < |layer|
    ensures idx / 2 < |Above(h, layer)| && SiblingOf(layer, idx).Some?
    ensures Parent(h, layer[idx], SiblingOf(layer, idx).value) == Above(h, layer)[idx / 2]
  {
    hide Parent, Above, SiblingOf;
    var j := idx / 2;
    if idx == 2 * j + 1 {
      RightAbove(h, layer, j);
    } else {
      assert idx == 2 * j;
      LeftAbove(h, layer, j);
    }
  }

  lemma LeftAbove(h: Hash, layer: seq<string>, j: nat)
    requires 2 * j < |layer|
    ensures j < |Above(h, layer)| && SiblingOf(layer, 2 * j).Some?
    ensures Parent(h, layer[2 * j], SiblingOf(layer, 2 * j).value) == Above(h, layer)[j]
  {
    hide Parent, Above;
    AboveAt(h, layer, j);
  }

  lemma RightAbove(h: Hash, layer: seq<string>, j: nat)
    requires 2 * j + 1 < |layer|
    ensures j < |Above(h, layer)| && SiblingOf(layer, 2 * j + 1).Some?
    ensures Parent(h, layer[2 * j + 1], SiblingOf(layer, 2 * j + 1).value) == Above(h, layer)[j]
  {
    hide Parent, Above;
    AboveAt(h, layer, j);
    ParentComm(h, layer[2 * j], layer[2 * j + 1]);
  }

  /** Completeness: the proof of any leaf leads to the root, and every step but the
      topmost has a sibling to offer, odd layers included. */
  lemma {:induction false} ProofLeadsToRoot(h: Hash, leaves: seq<string>, idx: nat)
    requires idx < |leaves|
    ensures Hashes(ProofOver(Layers(h, leaves), idx)).Some?
    ensures Some(Walk(h, leaves[idx], Hashes(ProofOver(Layers(h, leaves), idx)).value)) == Root(h, leaves)
    decreases |leaves|
  {
    hide Parent, Above, SiblingOf;
    if |leaves| > 1 {
      var up := Above(h, leaves);
      ParentAbove(h, leaves, idx);
      ProofLeadsToRoot(h, up, idx / 2);
      assert Layers(h, leaves)[1..] == Layers(h, up);
      var proof := ProofOver(Layers(h, leaves), idx);
      assert proof[1..] == ProofOver(Layers(h, up), idx / 2);
      var hashes := Hashes(proof).value;
      assert hashes[1..] == Hashes(proof[1..]).value;
    }
  }

  // ---- the length of proofs ------------------------------------------------------

  /** The depth is the logarithm of the leaf count, rounded up. */
  lemma {:induction false} DepthIsLog(h: Hash, leaves: seq<string>)
    requires leaves != []
    ensures var depth := |Layers(h, leaves)| - 1;
            |leaves| <= Pow2(depth) && (depth > 0 ==> Pow2(depth - 1) < |leaves|)
    decreases |leaves|
  {
    hide Above;
    if |leaves| > 1 {
      var up := Above(h, leaves);
      DepthIsLog(h, up);
      assert 2 * |up| - 1 <= |leaves| <= 2 * |up|;
      assert |Layers(h, leaves)| == |Layers(h, up)| + 1;
    }
  }

  // ---- soundness -----------------------------------------------------------------

  /** Two different inputs with the same hash. */
  ghost predicate Collide(h: Hash, pair: (string, string)) {
    pair.0 != pair.1 && h(pair.0) == h(pair.1)
  }

  ghost predicate Digests(nodes: seq<string>) {
    forall i :: 0 <= i < |nodes| ==> |nodes[i]| == DIGEST_LENGTH
  }

  lemma AboveDigests(h: Hash, layer: seq<string>)
    ensures Digests(Above(h, layer))
  {
  }

  function Find(nodes: seq<string>, x: string): (i: nat)
    ensures i <= |nodes| && (x in nodes <==> i < |nodes|) && (i < |nodes| ==> nodes[i] == x)
  {
    if nodes == [] then 0 else if nodes[0] == x then 0 else 1 + Find(nodes[1..], x)
  }

  /** The pair of siblings under node j of the layer above. */
  function PairUnder(layer: seq<string>, j: nat): (string, string)
    requires 2 * j < |layer|
  {
    (layer[2 * j], if 2 * j + 1 < |layer| then layer[2 * j + 1] else layer[2 * j])
  }

  /** Looks, from the root down, for the step at which the walk leaves the tree. */
  function Collision(h: Hash, leaves: seq<string>, x: string, siblings: seq<string>): Option<(string, string)>
    decreases |leaves|
  {
    if |leaves| <= 1 || siblings == [] then None
    else
      var up, y := Above(h, leaves), Parent(h, x, siblings[0]);
      var above := Collision(h, up, y, siblings[1..]);
      if above.Some? then above
      else
        var j := Find(up, y);
        if 2 * j >= |leaves| then None
        else
          var pair := PairUnder(leaves, j);
          if Joined(x, siblings[0]) == Joined(pair.0, pair.1) then None
          else Some((Joined(x, siblings[0]), Joined(pair.0, pair.1)))
  }

  /** Equal concatenations of digests are concatenations of the same two digests. */
  lemma JoinedInjective(x: string, s: string, l: string, r: string)
    requires |s| == |l| == |r| == DIGEST_LENGTH
    requires Joined(x, s) == Joined(l, r)
    ensures x == l || x == r
  {
    hide Less;
    var a, b := if Less(x, s) then x else s, if Less(x, s) then s else x;
    var c, d := if Less(l, r) then l else r, if Less(l, r) then r else l;
    assert a + b == c + d;
    assert (a + b)[..64] == a && (a + b)[64..] == b;
    assert (c + d)[..64] == c && (c + d)[64..] == d;
  }

  /** Soundness: a proof of the tree's depth that reaches the root is a proof of a
      leaf, or else exhibits a collision of the hash. */
  lemma {:induction false} WalkSound(h: Hash, leaves: seq<string>, x: string, siblings: seq<string>)
    requires leaves != [] && Digests(leaves) && Digests(siblings)
    requires |siblings| == |Layers(h, leaves)| - 1
    requires Some(Walk(h, x, siblings)) == Root(h, leaves)
    ensures match Collision(h, leaves, x, siblings)
            case None => x in leaves
            case Some(pair) => Collide(h, pair)
    decreases |leaves|
  {
    hide Above, Joined;
    if |leaves| > 1 {
      var up, y := Above(h, leaves), Parent(h, x, siblings[0]);
      AboveDigests(h, leaves);
      WalkSound(h, up, y, siblings[1..]);
      if Collision(h, up, y, siblings[1..]).None? {
        var j := Find(up, y);
        AboveAt(h, leaves, j);
        var pair := PairUnder(leaves, j);
        if Joined(x, siblings[0]) == Joined(pair.0, pair.1) {
          JoinedInjective(x, siblings[0], pair.0, pair.1);
        }
      }
    }
  }

  /** The length of the proof matters: inner nodes have shorter proofs. */
  lemma InnerNodesHaveShorterProofs(h: Hash, leaves: seq<string>, j: nat)
    requires |leaves| > 1 && j < |Above(h, leaves)|
    ensures var up := Above(h, leaves);
            var hashes := Hashes(ProofOver(Layers(h, up), j));
            && hashes.Some? && |Layers(h, up)| == |Layers(h, leaves)| - 1
            && Some(Walk(h, up[j], hashes.value)) == Root(h, leaves)
  {
    ProofLeadsToRoot(h, Above(h, leaves), j);
  }
}
