/** Per-class vehicle queues: moving references between FIFOs, the effect of
    one upstream-to-downstream sweep over a link's cells, and what that
    sweep keeps (order, and every vehicle). */
module VehQueues {
  import opened CtmTypes

  /** move_veh_queue: pops k references off the front of `src` and pushes
      them, in order, on the back of `dst`.  Read together, the two queues
      hold the same vehicles in the same order as before. */
  method MoveVehQueue(src: seq<Veh>, dst: seq<Veh>, k: nat) returns (src': seq<Veh>, dst': seq<Veh>)
    requires k <= |src|
    ensures src' == src[k..]
    ensures dst' == dst + src[..k]
    ensures dst' + src' == dst + src
  {
    src', dst' := src, dst;
    var i := 0;
    while i < k
      invariant 0 <= i <= k
      invariant src' == src[i..]
      invariant dst' == dst + src[..i]
    {
      dst' := dst' + [src'[0]];
      src' := src'[1..];
      i := i + 1;
      assert src[..i] == src[..i - 1] + [src[i - 1]];
    }
    assert src == src[..k] + src[k..];
  }

  /** One class of move_last_cell: pops k references off the front of the
      terminal cell's queue and appends each to `finished`; a vehicle with
      no next link is fatal. */
  method DrainToFinished(queue: seq<Veh>, k: nat, finished: seq<Veh>, hasNextLink: Veh -> bool)
    returns (ok: bool, queue': seq<Veh>, finished': seq<Veh>)
    requires k <= |queue|
    ensures ok <==> forall j :: 0 <= j < k ==> hasNextLink(queue[j])
    ensures ok ==> queue' == queue[k..] && finished' == finished + queue[..k]
  {
    queue', finished' := queue, finished;
    var i := 0;
    while i < k
      invariant 0 <= i <= k
      invariant queue' == queue[i..]
      invariant finished' == finished + queue[..i]
      invariant forall j :: 0 <= j < i ==> hasNextLink(queue[j])
    {
      var v := queue'[0];
      queue' := queue'[1..];
      if !hasNextLink(v) {
        return false, queue', finished';
      }
      finished' := finished' + [v];
      i := i + 1;
      assert queue[..i] == queue[..i - 1] + [queue[i - 1]];
    }
    ok := true;
  }

  // ---------------------------------------------------------------------
  // One sweep over a link's cells

  /** Every cell's scheduled out-count is within what it holds. */
  predicate Schedulable(qs: seq<seq<Veh>>, outs: seq<int>) {
    |qs| == |outs| && forall i :: 0 <= i < |qs| ==> 0 <= outs[i] <= |qs[i]|
  }

  /** Cell i's queue after the sweep: what it kept of its own, followed by
      what its upstream neighbour sent it. */
  function Advanced(qs: seq<seq<Veh>>, outs: seq<int>, i: int): seq<Veh>
    requires Schedulable(qs, outs) && 0 <= i < |qs|
  {
    qs[i][outs[i]..] + (if i == 0 then [] else qs[i - 1][..outs[i - 1]])
  }

  function AdvanceAll(qs: seq<seq<Veh>>, outs: seq<int>): (r: seq<seq<Veh>>)
    requires Schedulable(qs, outs)
    ensures |r| == |qs|
  {
    seq(|qs|, i requires 0 <= i < |qs| => Advanced(qs, outs, i))
  }

  /** Taking or dropping no more than a queue's own front leaves what was
      appended behind it untouched. */
  lemma FrontOfAppended(a: seq<Veh>, b: seq<Veh>, k: int)
    requires 0 <= k <= |a|
    ensures (a + b)[k..] == a[k..] + b
    ensures (a + b)[..k] == a[..k]
  {
  }

  /** The queues after cells 0 .. k-1 have each sent their scheduled
      vehicles to the back of their downstream neighbour's queue. */
  function PartialSweep(qs: seq<seq<Veh>>, outs: seq<int>, k: int): (r: seq<seq<Veh>>)
    requires Schedulable(qs, outs) && 0 <= k < |qs|
    ensures |r| == |qs|
  {
    seq(|qs|, j requires 0 <= j < |qs| =>
      (if j < k then qs[j][outs[j]..] else qs[j]) + (if 0 < j <= k then qs[j - 1][..outs[j - 1]] else []))
  }

  /** Before the sweep nothing has moved. */
  lemma PartialSweepStart(qs: seq<seq<Veh>>, outs: seq<int>)
    requires Schedulable(qs, outs) && |qs| >= 1
    ensures PartialSweep(qs, outs, 0) == qs
  {
    var p := PartialSweep(qs, outs, 0);
    forall j | 0 <= j < |qs|
      ensures p[j] == qs[j]
    {
      assert p[j] == qs[j] + [];
    }
  }

  /** One more cell sends its scheduled vehicles: they leave the front of
      its queue and join the back of its neighbour's, and no other queue
      changes. */
  lemma PartialSweepStep(qs: seq<seq<Veh>>, outs: seq<int>, i: int)
    requires Schedulable(qs, outs) && 0 <= i < |qs| - 1
    ensures var p := PartialSweep(qs, outs, i);
      outs[i] <= |p[i]| &&
      PartialSweep(qs, outs, i + 1) == p[i := p[i][outs[i]..]][i + 1 := p[i + 1] + p[i][..outs[i]]]
  {
    var p := PartialSweep(qs, outs, i);
    var inflow := if i == 0 then [] else qs[i - 1][..outs[i - 1]];
    assert p[i] == qs[i] + inflow;
    FrontOfAppended(qs[i], inflow, outs[i]);
    var next := PartialSweep(qs, outs, i + 1);
    var rhs := p[i := p[i][outs[i]..]][i + 1 := p[i + 1] + p[i][..outs[i]]];
    forall j | 0 <= j < |qs|
      ensures next[j] == rhs[j]
    {
      if j == i + 1 {
        assert p[i + 1] == qs[i + 1] + [];
      }
    }
  }

  /** The sweep before the terminal cell drains: every cell but the
      terminal one has sent its scheduled vehicles on. */
  function SweptAll(qs: seq<seq<Veh>>, outs: seq<int>): (r: seq<seq<Veh>>)
    requires Schedulable(qs, outs) && |qs| >= 1
    ensures |r| == |qs|
  {
    PartialSweep(qs, outs, |qs| - 1)
  }

  /** When the terminal cell is scheduled to send everything it held, its
      swept queue starts with exactly that, and dropping it gives the
      queues after the whole sweep. */
  lemma DrainCompletesSweep(qs: seq<seq<Veh>>, outs: seq<int>)
    requires Schedulable(qs, outs) && |qs| >= 1 && outs[|qs| - 1] == |qs[|qs| - 1]|
    ensures var n, s := |qs|, SweptAll(qs, outs);
      s[n - 1][..outs[n - 1]] == qs[n - 1] &&
      s[n - 1 := s[n - 1][outs[n - 1]..]] == AdvanceAll(qs, outs)
  {
    var n, s := |qs|, SweptAll(qs, outs);
    var inflow := if n == 1 then [] else qs[n - 2][..outs[n - 2]];
    assert s[n - 1] == qs[n - 1] + inflow;
    FrontOfAppended(qs[n - 1], inflow, outs[n - 1]);
    var t, a := s[n - 1 := s[n - 1][outs[n - 1]..]], AdvanceAll(qs, outs);
    forall j | 0 <= j < n
      ensures t[j] == a[j]
    {
      assert a[j] == Advanced(qs, outs, j);
    }
  }

  /** What leaves the terminal cell in the sweep. */
  function Exited(qs: seq<seq<Veh>>, outs: seq<int>): seq<Veh>
    requires Schedulable(qs, outs) && |qs| >= 1
  {
    qs[|qs| - 1][..outs[|qs| - 1]]
  }

  /** All the references of a link's cells, downstream first: the terminal
      cell's queue from front to back, then its upstream neighbour's, and so
      on.  This is the order in which the vehicles will leave the link. */
  function Flatten(qs: seq<seq<Veh>>): seq<Veh> {
    if qs == [] then [] else qs[|qs| - 1] + Flatten(qs[..|qs| - 1])
  }

  /** A sweep neither reorders nor loses a vehicle: what leaves the terminal
      cell, followed by the link's queues afterwards, is exactly the link's
      queues before, downstream first. */
  lemma SweepKeepsOrder(qs: seq<seq<Veh>>, outs: seq<int>)
    requires Schedulable(qs, outs) && |qs| >= 1
    ensures Exited(qs, outs) + Flatten(AdvanceAll(qs, outs)) == Flatten(qs)
  {
    SweepPrefixKeepsOrder(qs, outs, |qs|);
    assert qs[..|qs|] == qs;
    assert AdvanceAll(qs, outs)[..|qs|] == AdvanceAll(qs, outs);
  }

  lemma {:induction false} SweepPrefixKeepsOrder(qs: seq<seq<Veh>>, outs: seq<int>, k: int)
    requires Schedulable(qs, outs) && 1 <= k <= |qs|
    ensures qs[k - 1][..outs[k - 1]] + Flatten(AdvanceAll(qs, outs)[..k]) == Flatten(qs[..k])
  {
    var a := AdvanceAll(qs, outs);
    assert a[..k][..k - 1] == a[..k - 1];
    assert qs[..k][..k - 1] == qs[..k - 1];
    assert Flatten(a[..k]) == a[k - 1] + Flatten(a[..k - 1]);
    assert Flatten(qs[..k]) == qs[k - 1] + Flatten(qs[..k - 1]);
    assert qs[k - 1] == qs[k - 1][..outs[k - 1]] + qs[k - 1][outs[k - 1]..];
    if k == 1 {
      assert a[0] == qs[0][outs[0]..];
    } else {
      SweepPrefixKeepsOrder(qs, outs, k - 1);
      assert a[k - 1] == qs[k - 1][outs[k - 1]..] + qs[k - 2][..outs[k - 2]];
    }
  }

  /** Hence a sweep conserves the vehicles of a class: those that leave plus
      those that stay are those that were there. */
  lemma SweepConserves(qs: seq<seq<Veh>>, outs: seq<int>)
    requires Schedulable(qs, outs) && |qs| >= 1
    ensures multiset(Exited(qs, outs)) + multiset(Flatten(AdvanceAll(qs, outs))) == multiset(Flatten(qs))
  {
    SweepKeepsOrder(qs, outs);
  }

  // ---------------------------------------------------------------------
  // Splitting a mixed queue by class

  /** The references of `s` whose vehicle is of class `cls`, in order. */
  function OfClass(s: seq<Veh>, cls: VehClass, classOf: Veh -> VehClass): (r: seq<Veh>)
    ensures |r| <= |s|
  {
    if s == [] then []
    else OfClass(s[..|s| - 1], cls, classOf) + (if classOf(s[|s| - 1]) == cls then [s[|s| - 1]] else [])
  }

  /** The first vehicle of a sequence, if of the class, comes first among
      that class's vehicles. */
  lemma {:induction false} OfClassCons(v: Veh, s: seq<Veh>, cls: VehClass, classOf: Veh -> VehClass)
    ensures OfClass([v] + s, cls, classOf) == (if classOf(v) == cls then [v] else []) + OfClass(s, cls, classOf)
    decreases |s|
  {
    if s == [] {
      assert [v] + s == [v] && [v][..0] == [];
    } else {
      var init, last := s[..|s| - 1], s[|s| - 1];
      assert ([v] + s)[..|s|] == [v] + init;
      OfClassCons(v, init, cls, classOf);
    }
  }

  /** The last vehicle of a sequence counts among its class's vehicles and
      no other's. */
  lemma OfClassLast(s: seq<Veh>, cls: VehClass, classOf: Veh -> VehClass)
    requires s != []
    ensures multiset(OfClass(s, cls, classOf)) ==
            multiset(OfClass(s[..|s| - 1], cls, classOf)) + (if classOf(s[|s| - 1]) == cls then multiset{s[|s| - 1]} else multiset{})
  {
  }

  lemma MultisetOfLast(s: seq<Veh>)
    requires s != []
    ensures multiset(s) == multiset(s[..|s| - 1]) + multiset{s[|s| - 1]}
  {
    assert s == s[..|s| - 1] + [s[|s| - 1]];
  }

  /** Splitting by class loses and invents nothing. */
  lemma {:induction false} SplitByClassConserves(s: seq<Veh>, classOf: Veh -> VehClass)
    ensures multiset(OfClass(s, Car, classOf)) + multiset(OfClass(s, Truck, classOf)) == multiset(s)
  {
    if s != [] {
      var init, last := s[..|s| - 1], s[|s| - 1];
      var cars, trucks := multiset(OfClass(init, Car, classOf)), multiset(OfClass(init, Truck, classOf));
      calc {
        multiset(OfClass(s, Car, classOf)) + multiset(OfClass(s, Truck, classOf));
        == { OfClassLast(s, Car, classOf); OfClassLast(s, Truck, classOf); }
        cars + trucks + multiset{last};
        == { SplitByClassConserves(init, classOf); }
        multiset(init) + multiset{last};
        == { MultisetOfLast(s); }
        multiset(s);
      }
    }
  }

  // ---------------------------------------------------------------------
  // Admitting vehicles into the upstream cell

  /** Appending to the upstream cell's queue appends to the back of the
      link's downstream-first order: admitted vehicles leave after every
      vehicle already on the link. */
  lemma {:induction false} AdmitUpstreamQueuesLast(qs: seq<seq<Veh>>, extra: seq<Veh>)
    requires |qs| >= 1
    ensures Flatten(qs[0 := qs[0] + extra]) == Flatten(qs) + extra
  {
    var qs' := qs[0 := qs[0] + extra];
    var n := |qs|;
    if n == 1 {
      assert qs'[..0] == [] && qs[..0] == [];
    } else {
      assert qs'[..n - 1] == qs[..n - 1][0 := qs[0] + extra];
      AdmitUpstreamQueuesLast(qs[..n - 1], extra);
    }
  }
}
