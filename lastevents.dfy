/** What the two front ends share for `/lastevents`: the parsing of `filter` values and the
    long-poll waits. The event counter and the shutdown flag are oracles indexed by the number
    of sleeps taken so far: `next(p)` is what `get_next_event()` returns after `p` sleeps,
    `shutdown(p)` whether the server's shut-down event is set then. */
module LastEvents {
  import opened Wrappers
  import opened Text

  /** One parsed `filter`: event type, project and, for three-part values, package. */
  datatype Filter = Filter(kind: string, project: string, package: Option<string>)

  /** One `filter` value split on '/': two pieces give a filter without package; otherwise
      the first three pieces are used, and a value without '/' raises IndexError on its
      second piece. */
  function ParseFilter(x: string, unquote: string -> string): Outcome<Filter>
  {
    var spl := Split(x, '/');
    if |spl| == 2 then Returns(Filter(unquote(spl[0]), unquote(spl[1]), None))
    else if |spl| < 3 then Raises(IndexError)
    else Returns(Filter(unquote(spl[0]), unquote(spl[1]), Some(unquote(spl[2]))))
  }

  /** The filters of all values, in order; the first value that raises aborts the request. */
  function ParseFiltersSpec(xs: seq<string>, unquote: string -> string): Outcome<seq<Filter>>
  {
    if |xs| == 0 then Returns([])
    else
      match ParseFiltersSpec(xs[..|xs| - 1], unquote)
      case Raises(e) => Raises(e)
      case Returns(fs) =>
        match ParseFilter(xs[|xs| - 1], unquote)
        case Raises(e) => Raises(e)
        case Returns(f) => Returns(fs + [f])
  }

  /** `for x in qfilters: ... filters.append(...)`. */
  method ParseFilters(xs: seq<string>, unquote: string -> string) returns (r: Outcome<seq<Filter>>)
    ensures r == ParseFiltersSpec(xs, unquote)
  {
    var filters: seq<Filter> := [];
    var i := 0;
    while i < |xs|
      invariant 0 <= i <= |xs|
      invariant ParseFiltersSpec(xs[..i], unquote) == Returns(filters)
    {
      assert xs[..i + 1][..i] == xs[..i];
      var spl := Split(xs[i], '/');
      if |spl| == 2 {
        filters := filters + [Filter(unquote(spl[0]), unquote(spl[1]), None)];
      } else if |spl| < 3 {
        assert ParseFiltersSpec(xs[..i + 1], unquote) == Raises(IndexError);
        ParseFiltersAbort(xs, i + 1, unquote);
        return Raises(IndexError);
      } else {
        filters := filters + [Filter(unquote(spl[0]), unquote(spl[1]), Some(unquote(spl[2])))];
      }
      i := i + 1;
    }
    assert xs[..i] == xs;
    r := Returns(filters);
  }

  /** Once a prefix of the values raises, so do all longer prefixes. */
  lemma {:induction false} ParseFiltersAbort(xs: seq<string>, i: nat, unquote: string -> string)
    requires i <= |xs| && ParseFiltersSpec(xs[..i], unquote).Raises?
    ensures ParseFiltersSpec(xs, unquote) == ParseFiltersSpec(xs[..i], unquote)
    decreases |xs| - i
  {
    if i < |xs| {
      assert xs[..i + 1][..i] == xs[..i];
      ParseFiltersAbort(xs, i + 1, unquote);
    } else {
      assert xs[..i] == xs;
    }
  }

  /** Parsed filters correspond one to one with the values, each as `ParseFilter` reads it;
      parsing raises exactly when some value has no '/'. */
  lemma {:induction false} ParseFiltersPointwise(xs: seq<string>, unquote: string -> string)
    ensures ParseFiltersSpec(xs, unquote).Returns? <==> forall i :: 0 <= i < |xs| ==> '/' in xs[i]
    ensures ParseFiltersSpec(xs, unquote).Returns? ==>
      |ParseFiltersSpec(xs, unquote).value| == |xs| &&
      forall i :: 0 <= i < |xs| ==> ParseFilter(xs[i], unquote) == Returns(ParseFiltersSpec(xs, unquote).value[i])
  {
    if |xs| > 0 {
      var pre := xs[..|xs| - 1];
      ParseFiltersPointwise(pre, unquote);
      ParseFilterRaises(xs[|xs| - 1], unquote);
      assert forall i :: 0 <= i < |pre| ==> pre[i] == xs[i];
    }
  }

  /** A single value raises exactly when it has no '/'. */
  lemma ParseFilterRaises(x: string, unquote: string -> string)
    ensures ParseFilter(x, unquote).Raises? <==> '/' !in x
  {
    if '/' !in x {
      SplitNoSeparator(x, '/');
    } else {
      JoinSplit(x, '/');
    }
  }

  /** `"t/p"` reads as type `t`, project `p` and no package; `"t/p/k"` adds package `k`. */
  lemma ParseFilterShapes(t: string, p: string, k: string, unquote: string -> string)
    requires '/' !in t && '/' !in p && '/' !in k
    ensures ParseFilter(t + "/" + p, unquote) == Returns(Filter(unquote(t), unquote(p), None))
    ensures ParseFilter(t + "/" + p + "/" + k, unquote) == Returns(Filter(unquote(t), unquote(p), Some(unquote(k))))
  {
    SplitJoin([t, p], '/');
    SplitJoin([t, p, k], '/');
    assert Join([t, p], '/') == t + "/" + p by {
      assert Join([p], '/') == p;
    }
    assert Join([t, p, k], '/') == t + "/" + p + "/" + k by {
      assert Join([k], '/') == k;
      assert Join([p, k], '/') == p + "/" + k;
    }
  }

  /** The reply to a caller that has lost sync: it names the current counter and holds no
      events. */
  function SyncLost(n: int): string
  {
    "<events next=\"" + IntToString(n) + "\" sync=\"lost\" />\n"
  }

  // ---------------------------------------------------------------------------
  // The long-poll waits
  // ---------------------------------------------------------------------------

  /** The mds2 wait can end: by poll `deadline` the counter has moved or the server is
      shutting down. Without it the source loops for ever. */
  predicate Mds2Settles(s: int, next: nat -> int, shutdown: nat -> bool, deadline: nat)
  {
    deadline >= 1 && (shutdown(deadline) || next(deadline) != s)
  }

  /** The poll, from `q` on, at which the mds2 wait ends. */
  function Mds2Stop(s: int, next: nat -> int, shutdown: nat -> bool, q: nat, deadline: nat): nat
    requires 1 <= q <= deadline && Mds2Settles(s, next, shutdown, deadline)
    decreases deadline - q
  {
    if shutdown(q) || next(q) != s then q else Mds2Stop(s, next, shutdown, q + 1, deadline)
  }

  /** The wait ends at the first poll after a sleep where the server is shutting down or the
      counter differs from `start`. */
  lemma {:induction false} Mds2StopIsFirst(s: int, next: nat -> int, shutdown: nat -> bool, q: nat, deadline: nat)
    requires 1 <= q <= deadline && Mds2Settles(s, next, shutdown, deadline)
    ensures var p := Mds2Stop(s, next, shutdown, q, deadline);
      && q <= p <= deadline
      && (shutdown(p) || next(p) != s)
      && forall j :: q <= j < p ==> !shutdown(j) && next(j) == s
    decreases deadline - q
  {
    if !(shutdown(q) || next(q) != s) {
      Mds2StopIsFirst(s, next, shutdown, q + 1, deadline);
    }
  }

  /** `while start == get_next_event(): sleep; if shut down: send 503, start = None`, entered
      with `start == next(0)`. Returns the polls taken, the final `start` and whether the 503
      was sent. */
  method Mds2Wait(s: int, next: nat -> int, shutdown: nat -> bool, ghost deadline: nat)
      returns (p: nat, start: Option<int>, sent503: bool)
    requires next(0) == s && Mds2Settles(s, next, shutdown, deadline)
    ensures p == Mds2Stop(s, next, shutdown, 1, deadline)
    ensures sent503 == shutdown(p)
    ensures start == if shutdown(p) then None else Some(s)
  {
    p := 0;
    start := Some(s);
    sent503 := false;
    while start == Some(next(p))
      invariant p <= deadline
      invariant p == deadline ==> start != Some(next(p))
      invariant p == 0 ==> start == Some(s) && !sent503
      invariant p >= 1 ==> Mds2Stop(s, next, shutdown, 1, deadline) == Mds2Stop(s, next, shutdown, p, deadline)
      invariant p >= 1 && start.Some? ==> start == Some(s) && !shutdown(p) && !sent503
      invariant start.None? ==> p >= 1 && shutdown(p) && sent503
      decreases deadline - p
    {
      if p >= 1 {
        assert Mds2Stop(s, next, shutdown, p, deadline) == Mds2Stop(s, next, shutdown, p + 1, deadline);
      }
      p := p + 1;
      if shutdown(p) {
        sent503 := true;
        start := None;
      }
    }
  }

  /** The fakeobs wait can end: by poll `deadline` the counter has moved. It has no other way
      out. */
  predicate FakeSettles(s: int, next: nat -> int, deadline: nat)
  {
    next(deadline) != s
  }

  /** The poll, from `q` on, at which the fakeobs wait ends. */
  function FakeStop(s: int, next: nat -> int, q: nat, deadline: nat): nat
    requires q <= deadline && FakeSettles(s, next, deadline)
    decreases deadline - q
  {
    if next(q) != s then q else FakeStop(s, next, q + 1, deadline)
  }

  /** The fakeobs wait ends at the first poll where the counter differs from `start`, having
      slept through every earlier one. */
  lemma {:induction false} FakeStopIsFirst(s: int, next: nat -> int, q: nat, deadline: nat)
    requires q <= deadline && FakeSettles(s, next, deadline)
    ensures var p := FakeStop(s, next, q, deadline);
      q <= p <= deadline && next(p) != s && forall j :: q <= j < p ==> next(j) == s
    decreases deadline - q
  {
    if next(q) == s {
      FakeStopIsFirst(s, next, q + 1, deadline);
    }
  }

  /** `while int(query["start"][0]) == gitmer.get_next_event(): time.sleep(10)`. */
  method FakeWait(s: int, next: nat -> int, ghost deadline: nat) returns (p: nat)
    requires FakeSettles(s, next, deadline)
    ensures p == FakeStop(s, next, 0, deadline)
  {
    p := 0;
    while s == next(p)
      invariant p <= deadline
      invariant FakeStop(s, next, 0, deadline) == FakeStop(s, next, p, deadline)
      decreases deadline - p
    {
      p := p + 1;
    }
  }
}
