/**
 The TUI's per-service cache of formatted log lines (crates/micromux-tui/src/render.rs, `render_logs`).

 A dirty pass asks its source for what is newer than just below the newest cached line, drops what
 the source no longer retains, replaces the newest line or appends. The cache is right when it is
 the source, formatted line by line.
 */
module ViewCache {
  import opened Prelude
  import opened LogBuffer
  import opened Replication
  import opened Mirror

  type Cache = seq<(nat, string)>

  /** Either the session's own ring or the attach client's mirror of it. */
  datatype Source = Local(entries: seq<LogLine>) | Remote(mirror: MirrorLog)
  {
    function Lines(): seq<LogLine> {
      if Local? then entries else mirror.logs
    }

    ghost predicate Valid() {
      && Ascending(Lines()) && (forall l :: l in Lines() ==> 1 <= l.seqNo)
      && (Remote? ==> mirror.firstRetained == FirstRetained(mirror.logs))
    }

    /** `logs_since`: the retention marker and the lines after a cursor. */
    function LogsSince(after: nat): (Option<nat>, seq<LogLine>) {
      if Local? then
        LinesSince(entries, after)
      else if mirror.logs != [] && after >= mirror.logs[|mirror.logs| - 1].seqNo then
        (None, mirror.logs)
      else
        (mirror.firstRetained, Filter(mirror.logs, (l: LogLine) => l.seqNo > after))
    }
  }

  function Formatted(lines: seq<LogLine>, format: string -> string): (r: Cache)
    ensures |r| == |lines|
    ensures forall i :: 0 <= i < |lines| ==> r[i] == (lines[i].seqNo, format(lines[i].line))
  {
    seq(|lines|, i requires 0 <= i < |lines| => (lines[i].seqNo, format(lines[i].line)))
  }

  // ---------------------------------------------------------------- one pass

  function CursorOf(cache: Cache): nat {
    if cache == [] then 0 else SaturatingSub(cache[|cache| - 1].0, 1)
  }

  function PrunedBelow(cache: Cache, first: nat): Cache {
    if cache != [] && cache[0].0 < first then PrunedBelow(cache[1..], first) else cache
  }

  function Pruned(cache: Cache, first: Option<nat>): Cache {
    if first.None? then [] else PrunedBelow(cache, first.value)
  }

  function LineCached(cache: Cache, line: LogLine, format: string -> string): Cache {
    var formatted := (line.seqNo, format(line.line));
    if cache != [] && cache[|cache| - 1].0 == line.seqNo
    then cache[|cache| - 1 := formatted]
    else cache + [formatted]
  }

  function LinesCached(cache: Cache, lines: seq<LogLine>, format: string -> string): Cache {
    if lines == [] then cache
    else LineCached(LinesCached(cache, lines[..|lines| - 1], format), lines[|lines| - 1], format)
  }

  function Synced(cache: Cache, source: Source, format: string -> string): Cache {
    var (first, lines) := source.LogsSince(CursorOf(cache));
    LinesCached(Pruned(cache, first), lines, format)
  }

  // ---------------------------------------------------------------- how a source may move on

  /**
   `new` is a later window onto the same numbered records as `old`: the window slides up past the
   first `cut` records, and of those still in it only the newest can have been replaced.
   */
  ghost predicate AdvancesBy(old': seq<LogLine>, new': seq<LogLine>, cut: nat) {
    && cut <= |old'| <= cut + |new'|
    && (forall i :: cut <= i < |old'| ==> old'[i].seqNo == new'[i - cut].seqNo)
    && (forall i :: cut <= i < |old'| - 1 ==> old'[i] == new'[i - cut])
    && (cut > 0 && new' != [] ==> old'[cut - 1].seqNo < new'[0].seqNo)
  }

  ghost predicate Advances(old': seq<LogLine>, new': seq<LogLine>) {
    && Ascending(old') && Ascending(new')
    && (forall l :: l in old' ==> 1 <= l.seqNo) && (forall l :: l in new' ==> 1 <= l.seqNo)
    && (old' != [] && new' != [] ==> exists cut: nat :: AdvancesBy(old', new', cut))
  }

  /** Any number of server steps advances what the server retains. */
  lemma EvolvesAdvances(s: Server, t: Server)
    requires Evolves(s, t)
    ensures Advances(Retained(s), Retained(t))
  {
    RetainedValid(s);
    RetainedValid(t);
    hide Ascending;
    var cut := Min(t.start - s.start, |Retained(s)|);
    if cut > 0 && t.start < |t.history| {
      AscendingAt(t.history, s.start + cut - 1, t.start);
    }
    RetainedAdvances(s, t, cut);
  }

  lemma RetainedAdvances(s: Server, t: Server, cut: nat)
    requires Evolves(s, t) && cut == Min(t.start - s.start, |Retained(s)|)
    requires cut > 0 && t.start < |t.history| ==> t.history[s.start + cut - 1].seqNo < t.history[t.start].seqNo
    ensures Retained(t) != [] ==> AdvancesBy(Retained(s), Retained(t), cut)
  {
    hide Ascending;
  }

  lemma RetainedValid(s: Server)
    requires ValidServer(s)
    ensures Ascending(Retained(s)) && forall l :: l in Retained(s) ==> 1 <= l.seqNo
  {
    AscendingSuffix(s.history, s.start);
  }

  // ---------------------------------------------------------------- the pass is right

  /** Where the answer after the cursor begins. */
  lemma AnswerIsSuffix(source: Source, after: nat, k: nat)
    requires source.Valid() && k < |source.Lines()|
    requires after < source.Lines()[k].seqNo && (k > 0 ==> source.Lines()[k - 1].seqNo <= after)
    ensures source.LogsSince(after) == (FirstRetained(source.Lines()), source.Lines()[k..])
  {
    var lines := source.Lines();
    AscendingAt(lines, k, |lines| - 1);
    forall i | 0 <= i < |lines| ensures lines[i].seqNo > after <==> i >= k {
      if i < k {
        AscendingAt(lines, i, k - 1);
      } else {
        AscendingAt(lines, k, i);
      }
    }
    if source.Remote? {
      FilterIsSuffix(lines, (l: LogLine) => l.seqNo > after, k);
    } else {
      var n := PartitionPoint(lines, (l: LogLine) => l.seqNo <= after);
      assert n == k by {
        if n < |lines| { assert n >= k; }
        if n > 0 { assert n - 1 < k; }
      }
    }
  }

  lemma {:induction false} LinesCachedNew(lines: seq<LogLine>, more: seq<LogLine>, format: string -> string)
    requires Ascending(lines + more)
    ensures LinesCached(Formatted(lines, format), more, format) == Formatted(lines + more, format)
  {
    if more == [] {
      assert lines + more == lines;
    } else {
      var n := |more| - 1;
      var all := lines + more[..n];
      assert lines + more == all + [more[n]];
      AscendingPrefix(lines + more, |all|);
      LinesCachedNew(lines, more[..n], format);
      if all != [] {
        AscendingAt(lines + more, |all| - 1, |all|);
      }
      assert Formatted(lines + more, format)
          == Formatted(all, format) + [(more[n].seqNo, format(more[n].line))];
    }
  }

  /** Lines that start by replacing the newest cached one. */
  lemma {:induction false} LinesCachedReplacing(
      cached: seq<LogLine>, new': seq<LogLine>, k: nat, format: string -> string)
    requires Ascending(new') && |cached| == k + 1 <= |new'|
    requires cached[k].seqNo == new'[k].seqNo && cached[..k] == new'[..k]
    ensures LinesCached(Formatted(cached, format), new'[k..], format) == Formatted(new', format)
    decreases |new'|
  {
    var n := |new'| - 1;
    assert new'[k..][..n - k] == new'[..n][k..];
    if n == k {
      assert new'[k..] == [new'[k]];
      assert LinesCached(Formatted(cached, format), [new'[k]][..0], format) == Formatted(cached, format);
      assert Formatted(cached, format)[k := (new'[k].seqNo, format(new'[k].line))] == Formatted(new', format) by {
        assert forall i :: 0 <= i < k ==> cached[i] == cached[..k][i] == new'[..k][i] == new'[i];
      }
    } else {
      AscendingPrefix(new', n);
      assert new'[..n][..k] == new'[..k];
      LinesCachedReplacing(cached, new'[..n], k, format);
      AscendingAt(new', n - 1, n);
      assert Formatted(new', format) == Formatted(new'[..n], format) + [(new'[n].seqNo, format(new'[n].line))];
    }
  }

  lemma {:induction false} PrunedIsSuffix(lines: seq<LogLine>, first: nat, cut: nat, format: string -> string)
    requires Ascending(lines) && cut <= |lines|
    requires cut > 0 ==> lines[cut - 1].seqNo < first
    requires cut < |lines| ==> first <= lines[cut].seqNo
    ensures PrunedBelow(Formatted(lines, format), first) == Formatted(lines[cut..], format)
    decreases cut
  {
    hide Formatted;
    if cut == 0 {
      assert lines[0..] == lines;
    } else {
      AscendingAt(lines, 0, cut - 1);
      assert Formatted(lines, format)[1..] == Formatted(lines[1..], format);
      AscendingSuffix(lines, 1);
      hide Ascending;
      PrunedIsSuffix(lines[1..], first, cut - 1, format);
      assert lines[1..][cut - 1..] == lines[cut..];
    }
  }

  /** From an empty cache a pass copies the source whole. */
  lemma {:induction false} EmptyCacheSynced(source: Source, format: string -> string)
    requires source.Valid()
    ensures Synced([], source, format) == Formatted(source.Lines(), format)
  {
    hide Formatted, Source.LogsSince, LinesCached, Ascending;
    var lines := source.Lines();
    if lines == [] {
      EmptySourceClears([], source, format);
    } else {
      assert lines[0] in lines;
      AnswerIsSuffix(source, 0, 0);
      assert [] + lines == lines;
      LinesCachedNew([], lines, format);
    }
  }

  /**
   A cache that was its source stays its source: however often the source appended, replaced its
   newest line, evicted or was cleared in between, one dirty pass copies it exactly.
   */
  lemma PassRestoresCache(old': seq<LogLine>, source: Source, format: string -> string)
    requires source.Valid() && Advances(old', source.Lines())
    ensures Synced(Formatted(old', format), source, format) == Formatted(source.Lines(), format)
  {
    var new' := source.Lines();
    var cache := Formatted(old', format);
    if old' == [] {
      EmptyCacheSynced(source, format);
    } else if new' == [] {
      EmptySourceClears(cache, source, format);
    } else {
      var cut: nat :| AdvancesBy(old', new', cut);
      if cut < |old'| {
        WindowKeepsNewest(old', source, cut, format);
      } else {
        WindowMovesPast(old', source, format);
      }
    }
  }

  lemma EmptySourceClears(cache: Cache, source: Source, format: string -> string)
    requires source.Valid() && source.Lines() == []
    ensures Synced(cache, source, format) == []
  {
    hide Formatted;
  }

  /** The window moved, and still shows the newest line that was cached. */
  lemma WindowKeepsNewest(old': seq<LogLine>, source: Source, cut: nat, format: string -> string)
    requires source.Valid() && Ascending(old') && (forall l :: l in old' ==> 1 <= l.seqNo)
    requires cut < |old'| && AdvancesBy(old', source.Lines(), cut)
    ensures Synced(Formatted(old', format), source, format) == Formatted(source.Lines(), format)
  {
    hide Source.LogsSince, Formatted, Ascending, LinesCached, PrunedBelow;
    var new' := source.Lines();
    var k := |old'| - 1 - cut;
    if k > 0 {
      AscendingAt(old', |old'| - 2, |old'| - 1);
    }
    AnswerIsSuffix(source, old'[|old'| - 1].seqNo - 1, k);
    PrunedIsSuffix(old', new'[0].seqNo, cut, format);
    assert old'[cut..][..k] == new'[..k];
    LinesCachedReplacing(old'[cut..], new', k, format);
  }

  /** The window moved past everything that was cached. */
  lemma WindowMovesPast(old': seq<LogLine>, source: Source, format: string -> string)
    requires source.Valid() && Ascending(old') && (forall l :: l in old' ==> 1 <= l.seqNo)
    requires old' != [] && source.Lines() != [] && AdvancesBy(old', source.Lines(), |old'|)
    ensures Synced(Formatted(old', format), source, format) == Formatted(source.Lines(), format)
  {
    hide Source.LogsSince, Formatted, Ascending, LinesCached, PrunedBelow;
    var new' := source.Lines();
    AnswerIsSuffix(source, old'[|old'| - 1].seqNo - 1, 0);
    PrunedIsSuffix(old', new'[0].seqNo, |old'|, format);
    assert old'[|old'|..] == [] && new'[0..] == new' && [] + new' == new';
    LinesCachedNew([], new', format);
  }

  /**
   A cursor at or beyond the newest mirrored number means that the mirror serves another sequence
   space. Whatever the cache then holds, the same pass replaces it with the mirror.
   */
  lemma RegressedCursorRepopulates(cache: Cache, m: MirrorLog, format: string -> string)
    requires Remote(m).Valid() && m.logs != []
    requires m.logs[|m.logs| - 1].seqNo <= CursorOf(cache)
    ensures Synced(cache, Remote(m), format) == Formatted(m.logs, format)
  {
    hide Formatted, Ascending, LinesCached, LinesSince, Filter;
    assert [] + m.logs == m.logs;
    assert Formatted([], format) == [];
    LinesCachedNew([], m.logs, format);
  }

  // ---------------------------------------------------------------- any two windows

  /** How many lines at the front are numbered below `n`. */
  function FrontBelow(lines: seq<LogLine>, n: nat): (k: nat)
    ensures k <= |lines|
  {
    PartitionPoint(lines, (l: LogLine) => l.seqNo < n)
  }

  /** The boundary; it lies inside if any number reaches `n`. */
  lemma {:induction false} FrontBelowMeans(lines: seq<LogLine>, n: nat) returns (k: nat)
    requires Ascending(lines)
    ensures k == FrontBelow(lines, n) <= |lines|
    ensures k > 0 ==> lines[k - 1].seqNo < n
    ensures k < |lines| ==> n <= lines[k].seqNo
    ensures lines != [] && n <= lines[|lines| - 1].seqNo ==> k < |lines|
  {
    k := FrontBelow(lines, n);
    forall i, j | 0 <= i < j < |lines| ensures lines[i].seqNo < lines[j].seqNo {
      AscendingAt(lines, i, j);
    }
    assert Partitioned(lines, (l: LogLine) => l.seqNo < n);
  }

  /** The newest cached number lies within the source's window: only then is anything kept. */
  predicate Overlaps(old': seq<LogLine>, new': seq<LogLine>) {
    old' != [] && new' != [] && new'[0].seqNo <= old'[|old'| - 1].seqNo <= new'[|new'| - 1].seqNo
  }

  /**
   What a pass does not ask for again is right already: from the source's first number up to the newest
   cached one, the cached window shows what the source does, and the source still has that number.
   */
  ghost predicate OverlapIsRight(old': seq<LogLine>, new': seq<LogLine>, format: string -> string) {
    Overlaps(old', new') ==>
      var (c, k) := (FrontBelow(old', new'[0].seqNo), FrontBelow(new', old'[|old'| - 1].seqNo));
      c < |old'| && k < |new'| && SharedIsRight(old', new', c, k, format)
  }

  ghost predicate SharedIsRight(old': seq<LogLine>, new': seq<LogLine>, c: nat, k: nat, format: string -> string)
    requires c < |old'| && k < |new'|
  {
    && new'[k].seqNo == old'[|old'| - 1].seqNo
    && Formatted(old'[c..|old'| - 1], format) == Formatted(new'[..k], format)
  }

  lemma {:induction false} LinesCachedConcat(cache: Cache, a: seq<LogLine>, b: seq<LogLine>, format: string -> string)
    ensures LinesCached(cache, a + b, format) == LinesCached(LinesCached(cache, a, format), b, format)
    decreases |b|
  {
    hide LineCached;
    if b == [] {
      assert a + b == a;
    } else {
      var n := |b| - 1;
      assert (a + b)[..|a| + n] == a + b[..n];
      LinesCachedConcat(cache, a, b[..n], format);
    }
  }

  lemma {:induction false} FormattedConcat(a: seq<LogLine>, b: seq<LogLine>, format: string -> string)
    ensures Formatted(a + b, format) == Formatted(a, format) + Formatted(b, format)
  {
  }

  /** The first line takes the place of the newest cached one. */
  lemma {:induction false} LinesCachedOnLast(kept: seq<LogLine>, more: seq<LogLine>, format: string -> string)
    requires kept != [] && more != [] && kept[|kept| - 1].seqNo == more[0].seqNo
    requires Ascending(kept) && Ascending(more)
    ensures LinesCached(Formatted(kept, format), more, format) == Formatted(kept[..|kept| - 1] + more, format)
  {
    var j := |kept| - 1;
    var first := kept[..j] + [more[0]];
    assert more == [more[0]] + more[1..] && first + more[1..] == kept[..j] + more;
    assert LinesCached(Formatted(kept, format), [more[0]], format) == Formatted(first, format) by {
      assert [more[0]][..0] == [];
      assert LinesCached(Formatted(kept, format), [], format) == Formatted(kept, format);
      assert Formatted(kept, format)[j := (more[0].seqNo, format(more[0].line))] == Formatted(first, format);
    }
    JoinAscends(kept, more);
    LinesCachedConcat(Formatted(kept, format), [more[0]], more[1..], format);
    hide *;
    LinesCachedNew(first, more[1..], format);
  }

  lemma {:induction false} JoinAscends(kept: seq<LogLine>, more: seq<LogLine>)
    requires kept != [] && more != [] && kept[|kept| - 1].seqNo == more[0].seqNo
    requires Ascending(kept) && Ascending(more)
    ensures Ascending(kept[..|kept| - 1] + more)
  {
    var n, all := |kept| - 1, kept[..|kept| - 1] + more;
    forall i, j | 0 <= i < j < |all| ensures Precedes(all[i], all[j]) {
      if j < n {
        AscendingAt(kept, i, j);
      } else if i >= n {
        AscendingAt(more, i - n, j - n);
      } else {
        AscendingAt(kept, i, n);
        AscendingAt(more, 0, j - n);
      }
    }
  }

  /** What one pass makes of a cached window that overlaps the source's. */
  lemma {:induction false} OverlapSynced(old': seq<LogLine>, m: MirrorLog, c: nat, k: nat, format: string -> string)
    requires Remote(m).Valid() && Ascending(old') && c < |old'| && k < |m.logs|
    requires 1 <= old'[|old'| - 1].seqNo <= m.logs[k].seqNo
    requires k > 0 ==> m.logs[k - 1].seqNo < old'[|old'| - 1].seqNo
    requires m.logs[0].seqNo <= old'[c].seqNo && (c > 0 ==> old'[c - 1].seqNo < m.logs[0].seqNo)
    ensures Synced(Formatted(old', format), Remote(m), format)
         == LinesCached(Formatted(old'[c..], format), m.logs[k..], format)
  {
    hide Source.LogsSince, Formatted, Ascending, LinesCached, PrunedBelow;
    AnswerIsSuffix(Remote(m), old'[|old'| - 1].seqNo - 1, k);
    PrunedIsSuffix(old', m.logs[0].seqNo, c, format);
  }

  lemma {:induction false} OverlapExactly(
      old': seq<LogLine>, new': seq<LogLine>, c: nat, k: nat, format: string -> string)
    requires Ascending(old') && Ascending(new') && c < |old'| && k < |new'| && old'[|old'| - 1].seqNo <= new'[k].seqNo
    requires k > 0 ==> new'[k - 1].seqNo < old'[|old'| - 1].seqNo
    ensures LinesCached(Formatted(old'[c..], format), new'[k..], format) == Formatted(new', format)
       <==> SharedIsRight(old', new', c, k, format)
  {
    var kept, more, n := old'[c..], new'[k..], old'[|old'| - 1].seqNo;
    AscendingSuffix(old', c);
    AscendingSuffix(new', k);
    assert new' == new'[..k] + more && kept[..|kept| - 1] == old'[c..|old'| - 1];
    hide LinesCached, Ascending;
    if new'[k].seqNo == n {
      LinesCachedOnLast(kept, more, format);
      FormattedConcat(kept[..|kept| - 1], more, format);
      FormattedConcat(new'[..k], more, format);
      hide Formatted;
      SameEnds(Formatted(kept[..|kept| - 1], format), Formatted(new'[..k], format), Formatted(more, format));
    } else {
      AscendingConcat(kept, more);
      LinesCachedNew(kept, more, format);
      if Formatted(kept + more, format) == Formatted(new', format) {
        NumberIsMissing(kept + more, |kept| - 1, new', k, format);
      }
    }
  }

  lemma {:induction false} SameEnds(a: Cache, b: Cache, c: Cache)
    ensures a + c == b + c <==> a == b
  {
    if a + c == b + c {
      assert |a| == |b| && (a + c)[..|a|] == a && (b + c)[..|b|] == b;
    }
  }

  /** A number between two consecutive ones of a window is not in it. */
  lemma {:induction false} NumberIsMissing(
      all: seq<LogLine>, i: nat, new': seq<LogLine>, k: nat, format: string -> string)
    requires Ascending(new') && i < |all| && k < |new'| && all[i].seqNo < new'[k].seqNo
    requires k > 0 ==> new'[k - 1].seqNo < all[i].seqNo
    ensures Formatted(all, format) != Formatted(new', format)
  {
    if Formatted(all, format) == Formatted(new', format) {
      assert Formatted(all, format)[i].0 == Formatted(new', format)[i].0;
      if i < k {
        AscendingAt(new', i, k - 1);
      } else {
        AscendingAt(new', k, i);
      }
    }
  }

  /**
   Whatever the view has cached and whatever the mirror has become: one dirty pass makes the cache
   the formatted mirror exactly if the overlap of the two is right already.
   */
  lemma {:induction false} PassRestoresExactly(old': seq<LogLine>, m: MirrorLog, format: string -> string)
    requires Remote(m).Valid() && Ascending(old') && forall l :: l in old' ==> 1 <= l.seqNo
    ensures Synced(Formatted(old', format), Remote(m), format) == Formatted(m.logs, format)
       <==> OverlapIsRight(old', m.logs, format)
  {
    hide *;
    if Overlaps(old', m.logs) {
      OverlapRestores(old', m, format);
    } else {
      NoOverlapRestores(old', m, format);
    }
  }

  lemma {:induction false} OverlapRestores(old': seq<LogLine>, m: MirrorLog, format: string -> string)
    requires Remote(m).Valid() && Ascending(old') && (forall l :: l in old' ==> 1 <= l.seqNo)
    requires Overlaps(old', m.logs)
    ensures Synced(Formatted(old', format), Remote(m), format) == Formatted(m.logs, format)
       <==> OverlapIsRight(old', m.logs, format)
  {
    assert m.logs == Remote(m).Lines() && Ascending(m.logs) && old'[|old'| - 1] in old';
    var first, newest := m.logs[0].seqNo, old'[|old'| - 1].seqNo;
    assert first <= newest <= m.logs[|m.logs| - 1].seqNo;
    hide *;
    var c: nat := FrontBelowMeans(old', first);
    var k: nat := FrontBelowMeans(m.logs, newest);
    OverlapSynced(old', m, c, k, format);
    OverlapExactly(old', m.logs, c, k, format);
    OverlapIsShared(old', m.logs, c, k, format);
  }

  lemma {:induction false} OverlapIsShared(
      old': seq<LogLine>, new': seq<LogLine>, c: nat, k: nat, format: string -> string)
    requires Overlaps(old', new') && c < |old'| && k < |new'|
    requires c == FrontBelow(old', new'[0].seqNo) && k == FrontBelow(new', old'[|old'| - 1].seqNo)
    ensures OverlapIsRight(old', new', format) <==> SharedIsRight(old', new', c, k, format)
  {
    hide SharedIsRight, FrontBelow;
  }

  lemma {:induction false} NoOverlapRestores(old': seq<LogLine>, m: MirrorLog, format: string -> string)
    requires Remote(m).Valid() && Ascending(old') && (forall l :: l in old' ==> 1 <= l.seqNo)
    requires !Overlaps(old', m.logs)
    ensures Synced(Formatted(old', format), Remote(m), format) == Formatted(m.logs, format)
    ensures OverlapIsRight(old', m.logs, format)
  {
    var cache := Formatted(old', format);
    assert m.logs == Remote(m).Lines();
    hide Source.LogsSince, Synced, Formatted, LinesCached, FrontBelow, Ascending, Source.Valid;
    if old' == [] {
      EmptyCacheSynced(Remote(m), format);
    } else if m.logs == [] {
      EmptySourceClears(cache, Remote(m), format);
    } else if m.logs[|m.logs| - 1].seqNo < old'[|old'| - 1].seqNo {
      assert CursorOf(cache) == old'[|old'| - 1].seqNo - 1;
      RegressedCursorRepopulates(cache, m, format);
    } else {
      assert old'[|old'| - 1] in old';
      SourceIsBeyond(old', m, format);
    }
  }

  lemma {:induction false} SourceIsBeyond(old': seq<LogLine>, m: MirrorLog, format: string -> string)
    requires Remote(m).Valid() && Ascending(old') && old' != [] && m.logs != []
    requires 1 <= old'[|old'| - 1].seqNo < m.logs[0].seqNo
    ensures Synced(Formatted(old', format), Remote(m), format) == Formatted(m.logs, format)
  {
    hide Source.LogsSince, Formatted, Ascending, LinesCached, PrunedBelow;
    AnswerIsSuffix(Remote(m), old'[|old'| - 1].seqNo - 1, 0);
    PrunedIsSuffix(old', m.logs[0].seqNo, |old'|, format);
    assert old'[|old'|..] == [] && m.logs[0..] == m.logs && [] + m.logs == m.logs;
    LinesCachedNew([], m.logs, format);
  }

  // ---------------------------------------------------------------- the mirror as a source

  /** The mirror's own history: everything it ever held, and what it still holds. */
  ghost predicate MirrorHistory(m: MirrorLog, v: Server) {
    && ValidServer(v) && Retained(v) == m.logs && m.firstRetained == FirstRetained(m.logs)
    && LastNumber(v, m.nextLogSeq)
  }

  ghost predicate LastNumber(v: Server, next: nat) {
    next == if v.history == [] then 0 else v.history[|v.history| - 1].seqNo
  }

  /** The mirror `m` comes after the history `v` in the same sequence space. */
  ghost predicate ComesAfter(m: MirrorLog, v: Server) {
    exists w :: Evolves(v, w) && MirrorHistory(m, w)
  }

  lemma NewestReplacedIsStep(v: Server, line: LogLine) returns (w: Server)
    requires ValidServer(v) && v.start < |v.history|
    requires v.history[|v.history| - 1].seqNo == line.seqNo
    ensures Evolves(v, w) && Retained(w) == Retained(v)[..|Retained(v)| - 1] + [line]
    ensures LastNumber(w, line.seqNo)
  {
    var n := |v.history| - 1;
    w := Server(v.history[..n] + [line], v.start);
    AscendingPrefix(v.history, n);
    if n > 0 {
      AscendingAt(v.history, n - 1, n);
    }
    AscendingPush(v.history[..n], line);
    hide Ascending;
  }

  lemma NewerPushedIsStep(v: Server, line: LogLine) returns (w: Server)
    requires ValidServer(v) && 1 <= line.seqNo
    requires v.history != [] ==> v.history[|v.history| - 1].seqNo < line.seqNo
    ensures Evolves(v, w) && Retained(w) == Retained(v) + [line] && LastNumber(w, line.seqNo)
  {
    w := Server(v.history + [line], v.start);
    AscendingPush(v.history, line);
    hide Ascending;
  }

  lemma LineIsStep(logs: seq<LogLine>, next: nat, v: Server, line: LogLine) returns (w: Server)
    requires ValidServer(v) && Retained(v) == logs && 1 <= line.seqNo && LastNumber(v, next)
    ensures Evolves(v, w)
    ensures var (logs', next') := LineAppended(logs, next, line);
      Retained(w) == logs' && LastNumber(w, next')
  {
    hide Ascending;
    if logs != [] && logs[|logs| - 1].seqNo == line.seqNo {
      assert logs[|logs| - 1] == v.history[|v.history| - 1];
      w := NewestReplacedIsStep(v, line);
    } else if line.seqNo > next {
      w := NewerPushedIsStep(v, line);
    } else {
      w := v;
    }
  }

  lemma {:induction false} LinesAreSteps(
      logs: seq<LogLine>, next: nat, v: Server, lines: seq<LogLine>)
    returns (w: Server)
    requires ValidServer(v) && Retained(v) == logs && LastNumber(v, next)
    requires forall l :: l in lines ==> 1 <= l.seqNo
    ensures Evolves(v, w)
    ensures var (logs', next') := LinesAppended(logs, next, lines);
      Retained(w) == logs' && LastNumber(w, next')
  {
    hide LineAppended, LastNumber, Ascending;
    if lines == [] {
      w := v;
    } else {
      var n := |lines| - 1;
      var before := LinesAppended(logs, next, lines[..n]);
      var u := LinesAreSteps(logs, next, v, lines[..n]);
      w := LineIsStep(before.0, before.1, u, lines[n]);
      EvolvesTransitive(v, u, w);
    }
  }

  /** Whatever lines a page holds, appending it only advances the mirror's own history. */
  lemma {:induction false} PageAdvancesMirror(m: MirrorLog, v: Server, lines: seq<LogLine>)
    requires MirrorHistory(m, v) && forall l :: l in lines ==> 1 <= l.seqNo
    ensures ComesAfter(PageAppended(m, lines), v)
  {
    hide LinesAppended, Ascending;
    var u := LinesAreSteps(m.logs, m.nextLogSeq, v, lines);
    var cut := SaturatingSub(|Retained(u)|, REMOTE_LOG_TAIL);
    var w := u.(start := u.start + cut);
    assert Retained(w) == Retained(u)[cut..];
    assert Evolves(v, w) && MirrorHistory(PageAppended(m, lines), w);
  }

  function PagesAppended(m: MirrorLog, pages: seq<seq<LogLine>>): MirrorLog {
    if pages == [] then m else PageAppended(PagesAppended(m, pages[..|pages| - 1]), pages[|pages| - 1])
  }

  ghost predicate RealNumbers(pages: seq<seq<LogLine>>) {
    forall i :: 0 <= i < |pages| ==> forall l :: l in pages[i] ==> 1 <= l.seqNo
  }

  lemma {:induction false} PagesAdvanceMirror(m: MirrorLog, v: Server, pages: seq<seq<LogLine>>)
    requires MirrorHistory(m, v) && RealNumbers(pages)
    ensures ComesAfter(PagesAppended(m, pages), v)
  {
    hide PageAppended, Ascending;
    if pages == [] {
      assert Evolves(v, v);
    } else {
      var n := |pages| - 1;
      PagesAdvanceMirror(m, v, pages[..n]);
      var u :| Evolves(v, u) && MirrorHistory(PagesAppended(m, pages[..n]), u);
      assert forall l :: l in pages[n] ==> 1 <= l.seqNo;
      PageAdvancesMirror(PagesAppended(m, pages[..n]), u, pages[n]);
      var w :| Evolves(u, w) && MirrorHistory(PagesAppended(m, pages), w);
      EvolvesTransitive(v, u, w);
    }
  }

  lemma AscendingConcat(a: seq<LogLine>, b: seq<LogLine>)
    requires Ascending(a) && Ascending(b)
    requires a != [] && b != [] ==> a[|a| - 1].seqNo < b[0].seqNo
    ensures Ascending(a + b)
  {
    forall i, j | 0 <= i < j < |a| + |b| ensures Precedes((a + b)[i], (a + b)[j]) {
      if j < |a| {
        AscendingAt(a, i, j);
      } else if i < |a| {
        AscendingAt(a, i, |a| - 1);
        AscendingAt(b, 0, j - |a|);
      } else {
        AscendingAt(b, i - |a|, j - |a|);
      }
    }
  }

  lemma NewTail(lines: seq<LogLine>)
    requires Ascending(lines) && lines != [] && forall l :: l in lines ==> 1 <= l.seqNo
    ensures var kept := lines[SaturatingSub(|lines|, REMOTE_LOG_TAIL)..];
      TailReplaced(lines) == MirrorLog(kept, lines[|lines| - 1].seqNo, FirstRetained(kept))
  {
    NewerLinesAllAppended([], 0, lines);
    assert [] + lines == lines;
  }

  lemma NewerTailIsStep(v: Server, lines: seq<LogLine>, cut: nat) returns (w: Server)
    requires ValidServer(v) && Ascending(lines) && cut < |lines| && 1 <= lines[0].seqNo
    requires v.history != [] ==> v.history[|v.history| - 1].seqNo < lines[0].seqNo
    ensures Evolves(v, w) && Retained(w) == lines[cut..] && LastNumber(w, lines[|lines| - 1].seqNo)
  {
    AscendingConcat(v.history, lines);
    forall i | 0 <= i < |lines| ensures 1 <= lines[i].seqNo {
      AscendingAt(lines, 0, i);
    }
    hide Ascending;
    w := Server(v.history + lines, |v.history| + cut);
  }

  /** So does starting over from a tail that is newer than everything the mirror ever held. */
  lemma {:induction false} TailAdvancesMirror(m: MirrorLog, v: Server, lines: seq<LogLine>)
    requires MirrorHistory(m, v) && Ascending(lines) && lines != []
    requires forall l :: l in lines ==> m.nextLogSeq < l.seqNo
    ensures ComesAfter(TailReplaced(lines), v)
  {
    hide Ascending, TailReplaced, Evolves;
    NewTail(lines);
    assert lines[0] in lines;
    var w := NewerTailIsStep(v, lines, SaturatingSub(|lines|, REMOTE_LOG_TAIL));
    EvolvesValid(v, w);
    assert Evolves(v, w) && MirrorHistory(TailReplaced(lines), w);
  }

  lemma EvolvesValid(s: Server, t: Server)
    requires Evolves(s, t)
    ensures ValidServer(t)
  {
  }

  // ---------------------------------------------------------------- whole runs between two passes

  lemma RetainedIsSource(s: Server)
    requires ValidServer(s)
    ensures Local(Retained(s)).Valid()
    ensures forall m :: MirrorHistory(m, s) ==> Remote(m).Valid() && m.logs == Retained(s)
  {
    RetainedValid(s);
  }

  /**
   The ring as a source: whatever was appended, replaced, evicted or cleared since the last pass, one
   dirty pass makes the cache the formatted ring.
   */
  lemma {:induction false} PassAfterRingRun(
      ring: Ring, s: Server, numbers: set<nat>, ops: seq<Operation>, format: string -> string)
    requires ValidServer(s) && Retained(s) == ring.entries && HistoryIn(s, numbers) && KeepsSpace(numbers, ops)
    ensures var entries := ApplyAll(ring, ops).entries;
      Synced(Formatted(ring.entries, format), Local(entries), format) == Formatted(entries, format)
  {
    var t := RingRunEvolves(ring, s, numbers, ops);
    EvolvesAdvances(s, t);
    EvolvesValid(s, t);
    RetainedIsSource(t);
    assert Local(Retained(t)).Lines() == Retained(t);
    hide *;
    PassRestoresCache(Retained(s), Local(Retained(t)), format);
  }

  /** The mirror as a source: whatever pages were appended since the last pass, the same holds of it. */
  lemma {:induction false} PassAfterPages(m: MirrorLog, v: Server, pages: seq<seq<LogLine>>, format: string -> string)
    requires MirrorHistory(m, v) && RealNumbers(pages)
    ensures var after := PagesAppended(m, pages);
      Synced(Formatted(m.logs, format), Remote(after), format) == Formatted(after.logs, format)
  {
    PagesAdvanceMirror(m, v, pages);
    var after := PagesAppended(m, pages);
    var w :| Evolves(v, w) && MirrorHistory(after, w);
    EvolvesAdvances(v, w);
    EvolvesValid(v, w);
    RetainedIsSource(w);
    assert Remote(after).Lines() == after.logs && Retained(v) == m.logs;
    hide *;
    PassRestoresCache(m.logs, Remote(after), format);
  }

  // ---------------------------------------------------------------- the view

  class ServiceView {
    var cachedLines: Cache
    var textDirty: bool
    var logsDirty: bool

    constructor ()
      ensures cachedLines == [] && textDirty && logsDirty
    {
      cachedLines := [];
      textDirty := true;
      logsDirty := true;
    }

    /** The cache half of `render_logs`. */
    method RenderLogs(source: Source, format: string -> string)
      modifies this
      ensures old(logsDirty) ==> cachedLines == Synced(old(cachedLines), source, format) && textDirty
      ensures !old(logsDirty) ==> cachedLines == old(cachedLines) && textDirty == old(textDirty)
      ensures !logsDirty
    {
      hide Source.LogsSince, Ascending, Formatted, Filter, LinesSince;
      if logsDirty {
        var after := if cachedLines == [] then 0 else SaturatingSub(cachedLines[|cachedLines| - 1].0, 1);
        var (firstRetained, newLines) := source.LogsSince(after);
        match firstRetained {
          case None => cachedLines := [];
          case Some(first) =>
            while cachedLines != [] && cachedLines[0].0 < first
              invariant PrunedBelow(cachedLines, first) == PrunedBelow(old(cachedLines), first)
              decreases |cachedLines|
            {
              cachedLines := cachedLines[1..];
            }
        }
        ghost var pruned := cachedLines;
        for i := 0 to |newLines|
          invariant cachedLines == LinesCached(pruned, newLines[..i], format)
        {
          assert newLines[..i + 1][..i] == newLines[..i];
          var line := newLines[i];
          var formatted := (line.seqNo, format(line.line));
          if cachedLines != [] && cachedLines[|cachedLines| - 1].0 == line.seqNo {
            cachedLines := cachedLines[|cachedLines| - 1 := formatted];
          } else {
            cachedLines := cachedLines + [formatted];
          }
        }
        assert newLines[..|newLines|] == newLines;
        textDirty := true;
        logsDirty := false;
      }
    }
  }

  // ---------------------------------------------------------------- the whole chain

  /** `shown` has the server's text of what it shows and the server retains, and ends on the newest record. */
  ghost predicate ShowsText(shown: Cache, s: Server, format: string -> string)
    requires s.start <= |s.history|
  {
    && |shown| <= REMOTE_LOG_TAIL
    && (Retained(s) != [] ==>
          var newest := s.history[|s.history| - 1];
          shown != [] && shown[|shown| - 1] == (newest.seqNo, format(newest.line)))
    && (forall i, r :: 0 <= i < |shown| && r in Retained(s) && r.seqNo == shown[i].0 ==>
          shown[i] == (r.seqNo, format(r.line)))
  }

  /** Between two shown records no visible one is left out. */
  ghost predicate ShowsAllBetween(shown: Cache, s: Server) {
    forall i, r :: 0 <= i < |shown| && r in s.history && shown[i].0 <= r.seqNo <= shown[|shown| - 1].0 ==>
      ShownFrom(shown, i, r.seqNo)
  }

  ghost predicate ShownFrom(shown: Cache, i: nat, number: nat) {
    exists k :: i <= k < |shown| && shown[k].0 == number
  }

  lemma CaughtUpShowsText(m: MirrorLog, s: Server, format: string -> string)
    requires CaughtUp(m, s)
    ensures s.start <= |s.history| && ShowsText(Formatted(m.logs, format), s, format)
  {
    CaughtUpMeans(m, s);
    CaughtUpValid(m, s);
    hide CaughtUp, Ascending;
    var shown := Formatted(m.logs, format);
    forall i, r | 0 <= i < |shown| && r in Retained(s) && r.seqNo == shown[i].0
      ensures shown[i] == (r.seqNo, format(r.line))
    {
      assert m.logs[i] in m.logs;
    }
  }

  lemma CaughtUpShowsAllBetween(m: MirrorLog, s: Server, format: string -> string)
    requires CaughtUp(m, s)
    ensures ShowsAllBetween(Formatted(m.logs, format), s)
  {
    hide CaughtUp;
    var shown := Formatted(m.logs, format);
    forall i, r | 0 <= i < |shown| && r in s.history && shown[i].0 <= r.seqNo <= shown[|shown| - 1].0
      ensures ShownFrom(shown, i, r.seqNo)
    {
      CaughtUpGapFree(m, s, i, r);
      var k :| i <= k < |m.logs| && m.logs[k].seqNo == r.seqNo;
      assert shown[k].0 == r.seqNo;
    }
  }

  /** No record that the server retains is left out between two shown ones. */
  ghost predicate ShowsRetainedBetween(shown: Cache, s: Server)
    requires s.start <= |s.history|
  {
    forall i, r :: 0 <= i < |shown| && r in Retained(s) && shown[i].0 <= r.seqNo <= shown[|shown| - 1].0 ==>
      ShownFrom(shown, i, r.seqNo)
  }

  lemma ShownIsRetained(shown: Cache, v: Server, s: Server, format: string -> string)
    requires Thinned(v, s) && v.start <= |v.history| && ShowsText(shown, v, format) && ShowsAllBetween(shown, v)
    ensures s.start <= |s.history| && ShowsText(shown, s, format) && ShowsRetainedBetween(shown, s)
  {
    ThinnedValid(v, s);
    hide Thinned, ShownFrom;
    assert Retained(v) != [] ==>
      v.history[|v.history| - 1] == Retained(v)[|Retained(v)| - 1] == s.history[|s.history| - 1];
    assert forall r :: r in Retained(v) ==> r in v.history;
  }

  /**
   Ring to mirror to screen: a mirror that a refresh left caught up while the server moved on, shown by
   a cache that was the mirror at its last pass. `seen` is the server `now` without what it evicted
   before the client asked for it, as `RefreshLogs` leaves it.
   */
  lemma ChainShowsServer(old': seq<LogLine>, m: MirrorLog, seen: Server, now: Server, format: string -> string)
    requires CaughtUp(m, seen) && Thinned(seen, now) && Remote(m).Valid() && Advances(old', m.logs)
    ensures var shown := Synced(Formatted(old', format), Remote(m), format);
      && now.start <= |now.history| && ShowsText(shown, now, format) && ShowsRetainedBetween(shown, now)
      && ShowsAllBetween(shown, seen)
  {
    assert Remote(m).Lines() == m.logs;
    hide *;
    PassRestoresCache(old', Remote(m), format);
    CaughtUpShowsText(m, seen, format);
    CaughtUpShowsAllBetween(m, seen, format);
    ShownIsRetained(Formatted(m.logs, format), seen, now, format);
  }
}
