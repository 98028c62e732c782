/** Hashing and the tree together: a follow-up prompt finds the blocks of the prompt it extends. */
module PromptAffinity {
  import opened PrefixSets
  import opened TreeShape
  import opened RoutingHistory
  import Bits
  import Hashing

  function AsPath(hs: seq<bv64>): (p: Path)
    ensures |p| == |hs| && forall i :: 0 <= i < |hs| ==> p[i] == hs[i] as int
  {
    seq(|hs|, i requires 0 <= i < |hs| => hs[i] as int)
  }

  /** After any run, insert the blocks of `prompt` for `b`, then route a prompt that extends it: `b`
      is offered with at least all of the first prompt's hashed blocks, provided they fit in `cap`. */
  method FollowUp(cap: int, ops: seq<Op>, b: Backend, prompt: Bits.Bytes, more: Bits.Bytes,
                  size: int, cutoff: int, seed: int)
    returns (best: map<Backend, nat>)
    requires size != 0
    ensures var n := Hashing.BlockCount(|prompt|, size, cutoff);
      0 < n <= cap ==> b in best && best[b] >= n
    ensures forall a :: a in best ==> a == b || Live(ops, a) != []
  {
    var hp, hq := Hashing.HashBoth(prompt, prompt + more, size, cutoff, seed);
    var run := ops + [Insert(AsPath(hp), b)];
    assert run[..|run| - 1] == ops;
    best := RoutingBelief(cap, run, AsPath(hq));
    assert AsPath(hp) <= AsPath(hq);
    forall a | a in best && a != b ensures Live(ops, a) != [] {
      assert Live(run, a) == Live(ops, a);
    }
  }
}
