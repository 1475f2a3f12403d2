/** Using a tracked arena between a checkpoint and its release. */
module TrackedArenaRuns {
  import opened Folded
  import opened Sequences
  import opened TrackedArena

  /** The addresses from the i-th on are free, and will be when the ones before are taken. */
  ghost predicate Waiting(chain: Chain, ats: seq<nat>, i: nat) {
    && i <= |ats| && (forall j :: i <= j < |ats| ==> Available(chain, ats[j]))
    && forall j, k {:trigger Disjoint(ats[j], ats[k])} :: 0 <= j < k < |ats| ==> Disjoint(ats[j], ats[k])
  }

  lemma WaitingNext(chain: Chain, ats: seq<nat>, i: nat, p: nat)
    requires Waiting(chain, ats, i) && i < |ats| && |chain| > 0
    ensures Waiting(Allocated(chain, p, ats[i]), ats, i + 1)
  {
    var chain' := Allocated(chain, p, ats[i]);
    forall j, b | i < j < |ats| && 0 <= b < |chain'| ensures Disjoint(chain'[b].start, ats[j]) {
      assert Available(chain, ats[j]) && Disjoint(ats[i], ats[j]);
      if b < |chain| { assert Disjoint(chain[b].start, ats[j]) && chain'[b].start == chain[b].start; }
    }
  }

  ghost predicate ProgressOk(live: seq<nat>, handed: seq<nat>, chain: Chain, handed': seq<nat>, ps: seq<nat>,
                             ats: seq<nat>, i: nat)
  {
    && i <= |ps| == |ats| && Waiting(chain, ats, i)
    && handed' == handed + ps[..i] && Live(chain) == live + ps[..i]
  }

  /** The first i allocations of a list have been made; folded. */
  ghost predicate Progress(live: seq<nat>, handed: seq<nat>, chain: Chain, handed': seq<nat>, ps: seq<nat>,
                           ats: seq<nat>, i: nat)
  {
    Agrees(ProgressOk(live, handed, chain, handed', ps, ats, i));
    var r: bool :| forall depth: nat {:trigger Inspected(depth)} ::
      Agree(r, ProgressOk(live, handed, chain, handed', ps, ats, i));
    r
  }

  lemma ProgressNone(chain: Chain, handed: seq<nat>, ps: seq<nat>, ats: seq<nat>)
    requires |ps| == |ats| && Waiting(chain, ats, 0)
    ensures Progress(Live(chain), handed, chain, handed, ps, ats, 0)
  {
    assert Inspected(0);
  }

  lemma ProgressMore(live: seq<nat>, handed: seq<nat>, chain: Chain, handed': seq<nat>, ps: seq<nat>,
                     ats: seq<nat>, i: nat)
    requires Progress(live, handed, chain, handed', ps, ats, i) && i < |ps| && |chain| > 0
    ensures i < |ats| && Available(chain, ats[i])
    ensures Progress(live, handed, Allocated(chain, ps[i], ats[i]), handed' + [ps[i]], ps, ats, i + 1)
  {
    assert Inspected(0);
    WaitingNext(chain, ats, i, ps[i]);
    LiveAllocated(chain, ps[i], ats[i]);
    assert ps[..i + 1] == ps[..i] + [ps[i]];
  }

  lemma ProgressAll(live: seq<nat>, handed: seq<nat>, chain: Chain, handed': seq<nat>, ps: seq<nat>, ats: seq<nat>)
    requires Progress(live, handed, chain, handed', ps, ats, |ps|)
    ensures handed' == handed + ps && Live(chain) == live + ps
  {
    assert Inspected(0);
    assert ps[..|ps|] == ps;
  }

  /** Allocations one after the other. */
  method AllocAll(a: TrackingArena, ps: seq<nat>, ats: seq<nat>)
    requires a.Valid() && |ps| == |ats| && Waiting(a.chain, ats, 0)
    modifies a, a.blocks
    ensures a.Valid() && a.marks == old(a.marks) && a.freed == old(a.freed)
    ensures forall j :: 0 <= j < |a.blocks| ==> a.blocks[j] in old(a.blocks) || fresh(a.blocks[j])
    ensures a.handed == old(a.handed) + ps && Live(a.chain) == old(Live(a.chain)) + ps
  {
    ghost var live, handed := Live(a.chain), a.handed;
    ProgressNone(a.chain, handed, ps, ats);
    var i := 0;
    while i < |ps|
      invariant 0 <= i <= |ps| && a.Valid()
      invariant a.marks == old(a.marks) && a.freed == old(a.freed)
      invariant forall j :: 0 <= j < |a.blocks| ==> a.blocks[j] in old(a.blocks) || fresh(a.blocks[j])
      invariant Progress(live, handed, a.chain, a.handed, ps, ats, i)
    {
      ProgressMore(live, handed, a.chain, a.handed, ps, ats, i);
      var p := a.Alloc(ps[i], ats[i]);
      i := i + 1;
    }
    ProgressAll(live, handed, a.chain, a.handed, ps, ats);
  }

  /** Between a checkpoint and its release the arena can be used at will: all of it is
      freed, newest first, and the arena is what it was. */
  method UseAndRelease(a: TrackingArena, ps: seq<nat>, ats: seq<nat>)
    requires a.Valid() && |ps| == |ats| && Waiting(a.chain, ats, 0)
    modifies a, a.blocks
    ensures a.Valid() && a.chain == old(a.chain)
    ensures a.handed == old(a.handed) + ps && a.freed == old(a.freed) + Reverse(ps)
  {
    ghost var live := Live(a.chain);
    var checkpoint := a.Checkpoint();
    AllocAll(a, ps, ats);
    assert (live + ps)[|live|..] == ps;
    a.Release(checkpoint, |a.marks| - 1);
  }
}
