/**
 Session start tokens drawn by many threads from one atomic number
 (crates/micromux-control/src/server.rs).

 Every load, successful and failed exchange is one step, and steps of different calls interleave in
 any way. The orderings are relaxed, so that a load, or an exchange that fails, may observe any value
 that was ever stored; only a successful exchange has to find the newest one.
 */
module StartToken {
  import opened Prelude

  const U64_MAX: nat := 0xFFFF_FFFF_FFFF_FFFF

  type CallId = nat

  /** Where a call stands: it knows the time; it knows a stored value; it is done. */
  datatype Call = Timed(clock: nat) | Trying(clock: nat, previous: nat) | Returned(token: nat)
  datatype Commit = Commit(call: CallId, token: nat)

  /** `stored` lists every value the atomic has had, and `commits` who stored all but the first. */
  datatype World = World(stored: seq<nat>, calls: map<CallId, Call>, commits: seq<Commit>)

  datatype Action =
    | Begin(call: CallId, clock: nat)
    | Load(call: CallId, seen: nat)
    | Exchange(call: CallId)
    | Fail(call: CallId, seen: nat)

  const Initial: World := World([0], map[], [])

  /** `now.max(previous.saturating_add(1))`. */
  function NextToken(clock: nat, previous: nat): nat {
    Max(clock, Min(previous + 1, U64_MAX))
  }

  ghost predicate Does(w: World, action: Action, v: World) {
    match action
    case Begin(c, clock) =>
      c !in w.calls && clock <= U64_MAX && v == w.(calls := w.calls[c := Timed(clock)])
    case Load(c, seen) =>
      && c in w.calls && w.calls[c].Timed? && seen in w.stored
      && v == w.(calls := w.calls[c := Trying(w.calls[c].clock, seen)])
    case Exchange(c) =>
      && c in w.calls && w.calls[c].Trying? && w.stored != [] && w.calls[c].previous == w.stored[|w.stored| - 1]
      && var token := NextToken(w.calls[c].clock, w.calls[c].previous);
         v == World(w.stored + [token], w.calls[c := Returned(token)], w.commits + [Commit(c, token)])
    // Either another value is there, or the weak exchange fails for no reason.
    case Fail(c, seen) =>
      && c in w.calls && w.calls[c].Trying? && seen in w.stored
      && v == w.(calls := w.calls[c := w.calls[c].(previous := seen)])
  }

  ghost predicate Steps(w: World, v: World) {
    exists action :: Does(w, action, v)
  }

  ghost predicate IsRun(run: seq<World>) {
    run != [] && run[0] == Initial && forall i :: 0 <= i < |run| - 1 ==> Steps(run[i], run[i + 1])
  }

  // ---------------------------------------------------------------- the invariant

  /** `b` comes after `a`: it is larger, unless both are the last number there is. */
  ghost predicate Rises(a: nat, b: nat) {
    a < b || a == b == U64_MAX
  }

  ghost predicate AllRise(stored: seq<nat>) {
    && (forall i :: 0 <= i < |stored| ==> stored[i] <= U64_MAX)
    && forall i, j :: 0 <= i < j < |stored| ==> Rises(stored[i], stored[j])
  }

  ghost predicate CommitsAreStored(w: World) {
    && |w.stored| == |w.commits| + 1
    && forall i :: 0 <= i < |w.commits| ==> w.commits[i].token == w.stored[i + 1]
  }

  ghost predicate CallIsSound(w: World, c: CallId)
    requires c in w.calls
  {
    match w.calls[c]
    case Timed(clock) => clock <= U64_MAX
    case Trying(clock, previous) => clock <= U64_MAX && previous in w.stored
    case Returned(token) => exists i :: 0 <= i < |w.commits| && w.commits[i] == Commit(c, token)
  }

  ghost predicate CommitsAreReturned(w: World) {
    forall i :: 0 <= i < |w.commits| ==>
      var commit := w.commits[i];
      commit.call in w.calls && w.calls[commit.call] == Returned(commit.token)
  }

  ghost predicate Inv(w: World) {
    && AllRise(w.stored) && CommitsAreStored(w) && CommitsAreReturned(w)
    && forall c :: c in w.calls ==> CallIsSound(w, c)
  }

  lemma AllRiseGrows(stored: seq<nat>, token: nat)
    requires AllRise(stored) && stored != [] && Rises(stored[|stored| - 1], token) && token <= U64_MAX
    ensures AllRise(stored + [token])
  {
    var last := stored[|stored| - 1];
    forall i | 0 <= i < |stored| ensures Rises(stored[i], token) {
      assert i < |stored| - 1 ==> Rises(stored[i], last);
    }
  }

  lemma SoundElsewhere(w: World, v: World, c: CallId, d: CallId)
    requires d in w.calls && CallIsSound(w, d) && d != c
    requires c in v.calls && v.calls == w.calls[c := v.calls[c]]
    requires w.stored <= v.stored && w.commits <= v.commits
    ensures CallIsSound(v, d)
  {
    match w.calls[d] {
      case Returned(token) =>
        var i :| 0 <= i < |w.commits| && w.commits[i] == Commit(d, token);
        assert v.commits[i] == Commit(d, token);
      case Trying(_, previous) =>
        var i :| 0 <= i < |w.stored| && w.stored[i] == previous;
        assert v.stored[i] == previous;
      case Timed(_) =>
    }
  }

  lemma ExchangeKeeps(w: World, c: CallId, v: World)
    requires Inv(w) && Does(w, Exchange(c), v)
    ensures AllRise(v.stored) && CommitsAreStored(v) && CommitsAreReturned(v) && CallIsSound(v, c)
  {
    var token := v.calls[c].token;
    assert CallIsSound(w, c);
    AllRiseGrows(w.stored, token);
    assert v.commits[|w.commits|] == Commit(c, token);
    hide AllRise, CallIsSound;
  }

  lemma StepKeeps(w: World, action: Action, v: World)
    requires Inv(w) && Does(w, action, v)
    ensures Inv(v)
  {
    var c := action.call;
    if action.Exchange? {
      ExchangeKeeps(w, c, v);
    } else {
      assert v.stored == w.stored && v.commits == w.commits;
      assert c in w.calls ==> CallIsSound(w, c);
    }
    hide AllRise;
    forall d | d in v.calls ensures CallIsSound(v, d) {
      if d != c {
        SoundElsewhere(w, v, c, d);
      }
    }
  }

  lemma {:induction false} RunKeeps(run: seq<World>, n: nat)
    requires IsRun(run) && n < |run|
    ensures Inv(run[n])
  {
    if n > 0 {
      RunKeeps(run, n - 1);
      assert Steps(run[n - 1], run[n - 1 + 1]);
      var action :| Does(run[n - 1], action, run[n]);
      StepKeeps(run[n - 1], action, run[n]);
    }
  }

  // ---------------------------------------------------------------- what holds of every run

  /** Tokens rise in the order in which they are stored; two are equal only at the last number. */
  lemma TokensRise(run: seq<World>, i: nat, j: nat)
    requires IsRun(run) && i < j < |run[|run| - 1].commits|
    ensures var commits := run[|run| - 1].commits;
      && commits[i].token <= commits[j].token
      && (commits[i].token == commits[j].token <==> commits[i].token == U64_MAX)
      && commits[i].call != commits[j].call
  {
    var w := run[|run| - 1];
    RunKeeps(run, |run| - 1);
    assert Rises(w.stored[i + 1], w.stored[j + 1]);
    assert w.commits[i].token == w.stored[i + 1] && w.commits[j].token == w.stored[j + 1];
    NoCallCommitsTwice(run, |run| - 1, i, j);
  }

  lemma {:induction false} NoCallCommitsTwice(run: seq<World>, n: nat, i: nat, j: nat)
    requires IsRun(run) && n < |run| && i < j < |run[n].commits|
    ensures run[n].commits[i].call != run[n].commits[j].call
  {
    if n > 0 {
      var w, v := run[n - 1], run[n];
      RunKeeps(run, n - 1);
      assert Steps(w, run[n - 1 + 1]);
      var action :| Does(w, action, v);
      if j < |w.commits| {
        NoCallCommitsTwice(run, n - 1, i, j);
      } else {
        assert w.calls[w.commits[i].call].Returned?;
      }
    }
  }

  /** Two calls never return the same token, except the last number. */
  lemma TokensUnique(run: seq<World>, c: CallId, d: CallId)
    requires IsRun(run) && c != d
    requires var calls := run[|run| - 1].calls;
      c in calls && d in calls && calls[c].Returned? && calls[d].Returned?
    ensures var calls := run[|run| - 1].calls;
      calls[c].token == calls[d].token ==> calls[c].token == U64_MAX
  {
    var w := run[|run| - 1];
    RunKeeps(run, |run| - 1);
    assert CallIsSound(w, c) && CallIsSound(w, d);
    var i: nat :| 0 <= i < |w.commits| && w.commits[i] == Commit(c, w.calls[c].token);
    var j: nat :| 0 <= j < |w.commits| && w.commits[j] == Commit(d, w.calls[d].token);
    hide Inv, IsRun;
    if i < j {
      TokensRise(run, i, j);
    } else if j < i {
      TokensRise(run, j, i);
    }
  }

  lemma {:induction false} CommitsStay(run: seq<World>, k: nat, n: nat)
    requires IsRun(run) && k <= n < |run|
    ensures run[k].commits <= run[n].commits
    decreases n
  {
    if k < n {
      CommitsStay(run, k, n - 1);
      assert Steps(run[n - 1], run[n - 1 + 1]);
    }
  }

  /** A call that begins after another has returned gets a later token. */
  lemma LaterCallsGetLaterTokens(run: seq<World>, k: nat, c: CallId, d: CallId)
    requires IsRun(run) && k < |run|
    requires c in run[k].calls && run[k].calls[c].Returned? && d !in run[k].calls
    requires d in run[|run| - 1].calls && run[|run| - 1].calls[d].Returned?
    ensures Rises(run[k].calls[c].token, run[|run| - 1].calls[d].token)
  {
    var u, w := run[k], run[|run| - 1];
    RunKeeps(run, k);
    RunKeeps(run, |run| - 1);
    CommitsStay(run, k, |run| - 1);
    assert CallIsSound(u, c) && CallIsSound(w, d);
    var i: nat :| 0 <= i < |u.commits| && u.commits[i] == Commit(c, u.calls[c].token);
    var j: nat :| 0 <= j < |w.commits| && w.commits[j] == Commit(d, w.calls[d].token);
    assert w.commits[i] == u.commits[i];
    forall m | 0 <= m < |u.commits| ensures w.commits[m].call != d {
      assert w.commits[m] == u.commits[m] && u.commits[m].call in u.calls;
    }
    hide Inv, IsRun, Rises;
    TokensRise(run, i, j);
    RisesIs(w.commits[i].token, w.commits[j].token);
  }

  lemma RisesIs(a: nat, b: nat)
    requires a <= b && (a == b ==> a == U64_MAX)
    ensures Rises(a, b)
  {
  }

  /** A call keeps the time that it read when it began. */
  lemma {:induction false} ClockStays(run: seq<World>, k: nat, n: nat, c: CallId)
    requires IsRun(run) && k <= n < |run| && c in run[k].calls && run[k].calls[c].Timed?
    ensures c in run[n].calls
    ensures !run[n].calls[c].Returned? ==> run[n].calls[c].clock == run[k].calls[c].clock
    decreases n
  {
    if k < n {
      ClockStays(run, k, n - 1, c);
      assert Steps(run[n - 1], run[n - 1 + 1]);
    }
  }

  /**
   What a call returns is the least number that is at least the time at which it began and above the last
   number stored before it (no `other` such number is less), or the last number there is.
   */
  lemma TokenIsLeast(run: seq<World>, k: nat, n: nat, c: CallId, other: nat)
    requires IsRun(run) && k <= n < |run| - 1 && c in run[k].calls && run[k].calls[c].Timed?
    requires c in run[n].calls && !run[n].calls[c].Returned?
    requires c in run[n + 1].calls && run[n + 1].calls[c].Returned?
    ensures var (clock, token, stored) := (run[k].calls[c].clock, run[n + 1].calls[c].token, run[n].stored);
      && stored != [] && run[n + 1].stored == stored + [token]
      && var last := stored[|stored| - 1];
         && clock <= token && (last < token || last == token == U64_MAX)
         && (clock <= other && last < other ==> token <= other)
  {
    ClockStays(run, k, n, c);
    RunKeeps(run, n);
    var w, v := run[n], run[n + 1];
    assert Steps(w, v);
    var action :| Does(w, action, v);
    assert CallIsSound(w, c);
    hide IsRun;
    assert action == Exchange(c);
    var last := w.stored[|w.stored| - 1];
    assert last <= U64_MAX;
  }

  ghost predicate Repeats(run: seq<World>, c: CallId, d: CallId) {
    && IsRun(run) && c != d
    && var calls := run[|run| - 1].calls;
       c in calls && d in calls && calls[c].Returned? && calls[c] == calls[d]
  }

  /** At the last number uniqueness ends: a clock that stands there hands it out again. */
  lemma LastNumberRepeats()
    ensures exists run, c, d :: Repeats(run, c, d)
  {
    var m := U64_MAX;
    var w1 := World([0], map[0 := Timed(m)], []);
    var w2 := World([0], map[0 := Trying(m, 0)], []);
    var w3 := World([0, m], map[0 := Returned(m)], [Commit(0, m)]);
    var w4 := World([0, m], map[0 := Returned(m), 1 := Timed(m)], [Commit(0, m)]);
    var w5 := World([0, m], map[0 := Returned(m), 1 := Trying(m, m)], [Commit(0, m)]);
    var w6 := World([0, m, m], map[0 := Returned(m), 1 := Returned(m)], [Commit(0, m), Commit(1, m)]);
    assert Does(Initial, Begin(0, m), w1);
    assert Does(w1, Load(0, 0), w2);
    assert Does(w2, Exchange(0), w3);
    assert Does(w3, Begin(1, m), w4);
    assert w4.stored[1] == m;
    assert Does(w4, Load(1, m), w5);
    assert Does(w5, Exchange(1), w6);
    hide Does;
    var run := [Initial, w1, w2, w3, w4, w5, w6];
    assert IsRun(run);
    assert Repeats(run, 0, 1);
  }
}
