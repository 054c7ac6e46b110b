/** What verifying one file of the shared chain accepts, and how large files get. */
module AuditVerification {
  import opened Common
  import opened HashChain
  import opened AuditSegments

  /** The chain built by a run is intact from an empty start, and AddLog goes on from
      its last hash. */
  lemma {:induction false} ChainBuilt(cfg: Config, run: seq<Event>, n: nat)
    requires n <= |run|
    ensures Built(cfg.c, ChainOf(cfg, run, n))
    ensures After(cfg, run, n).lastHash == LastHash(ChainOf(cfg, run, n))
  {
    hide Step, ChainedBy, Built;
    if n == 0 {
      EmptyBuilt(cfg.c);
    } else {
      ChainBuilt(cfg, run, n - 1);
      StepChain(cfg, After(cfg, run, n - 1), run[n - 1], ChainOf(cfg, run, n - 1));
    }
  }

  lemma EmptyBuilt(c: Crypto)
    ensures Built(c, [])
  {
  }

  lemma StepChain(cfg: Config, s: State, e: Event, chain: seq<AuditLog>)
    requires Built(cfg.c, chain) && s.lastHash == LastHash(chain)
    ensures var r := ChainedBy(cfg, s, e);
            var chain1 := chain + if r.Some? then [r.value] else [];
            Built(cfg.c, chain1) && Step(cfg, s, e).lastHash == LastHash(chain1)
  {
    hide Store;
    assert chain + [] == chain;
    if ChainedBy(cfg, s, e).Some? { LinkBuilds(cfg.c, chain, Complete(e.now, e.log)); }
  }

  ghost predicate Places(chain: seq<AuditLog>, at: seq<nat>) {
    Increasing(at) && forall k :: 0 <= k < |at| ==> at[k] < |chain|
  }

  /** The records of an app are the chain's records at its places. */
  lemma {:induction false} RecordsAtPlaces(cfg: Config, run: seq<Event>, n: nat, app: string)
    requires n <= |run|
    ensures Places(ChainOf(cfg, run, n), PlacesOf(cfg, run, n, app))
    ensures RecordsOf(cfg, run, n, app) == Pick(ChainOf(cfg, run, n), PlacesOf(cfg, run, n, app))
  {
    hide Step, Store;
    if n > 0 {
      RecordsAtPlaces(cfg, run, n - 1, app);
    }
  }

  lemma {:induction false} ChainGrows(cfg: Config, run: seq<Event>, i: nat, n: nat)
    requires i < n <= |run|
    ensures |ChainOf(cfg, run, i)| <= |ChainOf(cfg, run, n)|
    ensures ChainedBy(cfg, After(cfg, run, i), run[i]).Some? ==> |ChainOf(cfg, run, i)| < |ChainOf(cfg, run, n)|
  {
    hide Step, ChainedBy;
    if i < n - 1 { ChainGrows(cfg, run, i, n - 1); }
  }

  /** Every place of the chain was taken by some event. */
  lemma {:induction false} PlaceTaken(cfg: Config, run: seq<Event>, n: nat, p: nat) returns (i: nat)
    requires n <= |run| && p < |ChainOf(cfg, run, n)|
    ensures i < n && ChainedBy(cfg, After(cfg, run, i), run[i]).Some? && |ChainOf(cfg, run, i)| == p
  {
    hide Step, ChainedBy;
    if p < |ChainOf(cfg, run, n - 1)| {
      i := PlaceTaken(cfg, run, n - 1, p);
    } else {
      i := n - 1;
    }
  }

  ghost predicate WritesFor(cfg: Config, run: seq<Event>, i: nat, app: string)
    requires i < |run|
  {
    Added(cfg, After(cfg, run, i), run[i], app) != []
  }

  lemma {:induction false} WrittenHasPlace(cfg: Config, run: seq<Event>, n: nat, i: nat, app: string)
    requires i < n <= |run| && WritesFor(cfg, run, i, app)
    ensures |ChainOf(cfg, run, i)| in PlacesOf(cfg, run, n, app)
  {
    hide Step, Added;
    if i < n - 1 { WrittenHasPlace(cfg, run, n - 1, i, app); }
  }

  lemma {:induction false} PlaceIsWritten(cfg: Config, run: seq<Event>, n: nat, p: nat, app: string) returns (i: nat)
    requires n <= |run| && p in PlacesOf(cfg, run, n, app)
    ensures i < n && WritesFor(cfg, run, i, app) && |ChainOf(cfg, run, i)| == p
  {
    hide Step, Added;
    if p in PlacesOf(cfg, run, n - 1, app) {
      i := PlaceIsWritten(cfg, run, n - 1, p, app);
    } else {
      i := n - 1;
    }
  }

  lemma OnePlaceEach(cfg: Config, run: seq<Event>, n: nat, i: nat, j: nat)
    requires i < n <= |run| && j < n && |ChainOf(cfg, run, i)| == |ChainOf(cfg, run, j)|
    requires ChainedBy(cfg, After(cfg, run, i), run[i]).Some? && ChainedBy(cfg, After(cfg, run, j), run[j]).Some?
    ensures i == j
  {
    hide *;
    if i < j {
      ChainGrows(cfg, run, i, j);
    } else if j < i {
      ChainGrows(cfg, run, j, i);
    }
  }

  /** Every record chained between the first and the last of these places was written
      for this app: none of another app and none whose write failed. */
  ghost predicate NothingBetween(cfg: Config, run: seq<Event>, n: nat, app: string, at: seq<nat>)
    requires n <= |run|
  {
    forall i :: 0 <= i < n && ChainedBy(cfg, After(cfg, run, i), run[i]).Some?
                && at != [] && at[0] < |ChainOf(cfg, run, i)| < at[|at| - 1]
                ==> WritesFor(cfg, run, i, app)
  }

  lemma {:induction false} ConsecutiveFills(at: seq<nat>, p: nat)
    requires Consecutive(at) && at != [] && at[0] <= p <= at[|at| - 1]
    ensures p in at
  {
    if at[|at| - 1] != p {
      assert |at| > 1;
      assert at[|at| - 1] == at[|at| - 2] + 1;
      ConsecutiveFills(at[..|at| - 1], p);
    }
  }

  /** A run of an app's places is consecutive exactly when nothing else was chained
      in between. */
  lemma ConsecutiveMeans(cfg: Config, run: seq<Event>, n: nat, app: string, lo: nat, hi: nat)
    requires n <= |run| && lo <= hi <= |PlacesOf(cfg, run, n, app)|
    ensures Consecutive(PlacesOf(cfg, run, n, app)[lo..hi])
            <==> NothingBetween(cfg, run, n, app, PlacesOf(cfg, run, n, app)[lo..hi])
  {
    hide ChainedBy, Added, ChainOf, PlacesOf, RecordsOf, After, Pick;
    var all := PlacesOf(cfg, run, n, app);
    var at := all[lo..hi];
    RecordsAtPlaces(cfg, run, n, app);
    if Consecutive(at) {
      forall i | 0 <= i < n && ChainedBy(cfg, After(cfg, run, i), run[i]).Some?
                 && at != [] && at[0] < |ChainOf(cfg, run, i)| < at[|at| - 1]
        ensures WritesFor(cfg, run, i, app)
      {
        var p := |ChainOf(cfg, run, i)|;
        ConsecutiveFills(at, p);
        assert p in all;
        var j := PlaceIsWritten(cfg, run, n, p, app);
        WritesChain(cfg, run, j, app);
        OnePlaceEach(cfg, run, n, i, j);
      }
    } else {
      var k :| 0 < k < |at| && at[k] != at[k - 1] + 1;
      GapShows(cfg, run, n, app, lo, hi, k);
    }
  }

  lemma WritesChain(cfg: Config, run: seq<Event>, j: nat, app: string)
    requires j < |run| && WritesFor(cfg, run, j, app)
    ensures ChainedBy(cfg, After(cfg, run, j), run[j]).Some?
  {
  }

  lemma GapShows(cfg: Config, run: seq<Event>, n: nat, app: string, lo: nat, hi: nat, k: nat)
    requires n <= |run| && lo <= hi <= |PlacesOf(cfg, run, n, app)|
    requires Places(ChainOf(cfg, run, n), PlacesOf(cfg, run, n, app))
    requires 0 < k < hi - lo && PlacesOf(cfg, run, n, app)[lo + k] != PlacesOf(cfg, run, n, app)[lo + k - 1] + 1
    ensures !NothingBetween(cfg, run, n, app, PlacesOf(cfg, run, n, app)[lo..hi])
  {
    hide ChainedBy, Added, ChainOf, PlacesOf, After;
    var all := PlacesOf(cfg, run, n, app);
    var at := all[lo..hi];
    var p := all[lo + k - 1] + 1;
    assert p < all[lo + k];
    var i := PlaceTaken(cfg, run, n, p);
    if WritesFor(cfg, run, i, app) {
      WrittenHasPlace(cfg, run, n, i, app);
      assert false;
    }
    assert at[0] <= at[k - 1] < p < at[k] <= at[|at| - 1];
  }

  // ---------- files ----------

  /** Where file k of an app starts among the app's records. */
  function Offset(segments: seq<Segment>, k: nat): nat
    requires k <= |segments|
  {
    |Flatten(segments[..k])|
  }

  lemma {:induction false} SegmentIsSlice(segments: seq<Segment>, k: nat)
    requires k < |segments|
    ensures var lo := Offset(segments, k);
            var hi := lo + |segments[k].records|;
            hi <= |Flatten(segments)| && Flatten(segments)[lo..hi] == segments[k].records
  {
    var front := segments[..|segments| - 1];
    if k < |segments| - 1 {
      SegmentIsSlice(front, k);
      assert front[..k] == segments[..k];
    }
  }

  /** Any stretch of an app's records passes VerifyChain exactly when nothing else was
      chained between its first and its last. */
  lemma StretchIntact(cfg: Config, run: seq<Event>, n: nat, app: string, lo: nat, hi: nat)
    requires Ideal(cfg.c) && n <= |run| && lo <= hi <= |RecordsOf(cfg, run, n, app)|
    ensures |PlacesOf(cfg, run, n, app)| == |RecordsOf(cfg, run, n, app)|
    ensures ChainIntact(cfg.c, RecordsOf(cfg, run, n, app)[lo..hi])
            <==> NothingBetween(cfg, run, n, app, PlacesOf(cfg, run, n, app)[lo..hi])
  {
    hide ChainOf, PlacesOf, RecordsOf, After, Ideal, ChainIntact, Built, NothingBetween, Consecutive;
    RecordsAtPlaces(cfg, run, n, app);
    ChainBuilt(cfg, run, n);
    var chain, all := ChainOf(cfg, run, n), PlacesOf(cfg, run, n, app);
    assert RecordsOf(cfg, run, n, app)[lo..hi] == Pick(chain, all[lo..hi]);
    PickedIntact(cfg.c, chain, all[lo..hi]);
    ConsecutiveMeans(cfg, run, n, app, lo, hi);
  }

  /** So verification of a closed file accepts it exactly when no record of another app
      and no failed write was chained between its records. */
  lemma FileVerifiesExactly(cfg: Config, run: seq<Event>, n: nat, app: string, k: nat)
    requires Ideal(cfg.c) && n <= |run| && k < |App(After(cfg, run, n), app).closed|
    ensures var segments := App(After(cfg, run, n), app).closed;
            var lo := Offset(segments, k);
            var hi := lo + |segments[k].records|;
            && hi <= |PlacesOf(cfg, run, n, app)|
            && (ChainIntact(cfg.c, segments[k].records)
                <==> NothingBetween(cfg, run, n, app, PlacesOf(cfg, run, n, app)[lo..hi]))
  {
    hide PlacesOf, RecordsOf, After, Ideal, ChainIntact, NothingBetween, Describes, LastSegment, Flatten;
    var a := App(After(cfg, run, n), app);
    SegmentsHoldRecords(cfg, run, n, app);
    SegmentIsSlice(a.closed, k);
    var recs := RecordsOf(cfg, run, n, app);
    var lo := Offset(a.closed, k);
    var hi := lo + |a.closed[k].records|;
    assert recs[lo..hi] == Flatten(a.closed)[lo..hi];
    StretchIntact(cfg, run, n, app, lo, hi);
  }

  // ---------- sizes ----------

  /** Every rotated file is full; strictly, it was not full before its last record,
      and the open file is not full. */
  ghost predicate SizeInv(cfg: Config, a: AppState, strictly: bool) {
    && (forall k :: 0 <= k < |a.closed| && a.closed[k].rotated ==> FullFile(cfg, a.closed[k].records, strictly))
    && (strictly && a.current.Some? ==> TotalSize(cfg.c, a.current.value.records) < cfg.rotateSize)
  }

  ghost predicate FullFile(cfg: Config, recs: seq<AuditLog>, strictly: bool) {
    && TotalSize(cfg.c, recs) >= cfg.rotateSize
    && (strictly ==> recs != [] && TotalSize(cfg.c, recs) - RecordSize(cfg.c, recs[|recs| - 1]) < cfg.rotateSize)
  }

  /** A failed index write returns before the size check, so the file may grow on. */
  lemma StoreSizes(cfg: Config, a: AppState, rec: AuditLog, fault: Fault, strictly: bool)
    requires cfg.rotateSize > 0 && SizeInv(cfg, a, strictly)
    requires a.current.Some? ==> a.current.value.size == TotalSize(cfg.c, a.current.value.records)
    requires strictly ==> fault != IndexFails
    ensures SizeInv(cfg, Store(cfg, a, rec, fault).0, strictly)
  {
    hide Indexed, RecordSize;
    TotalMore(cfg.c, CurrentFile(a, rec.timestamp).records, rec);
  }

  lemma StepSizes(cfg: Config, s: State, e: Event, app: string, strictly: bool)
    requires cfg.rotateSize > 0 && SizeInv(cfg, App(s, app), strictly)
    requires var f := App(s, app).current; f.Some? ==> f.value.size == TotalSize(cfg.c, f.value.records)
    requires strictly && e.DoWrite? ==> e.fault != IndexFails
    ensures SizeInv(cfg, App(Step(cfg, s, e), app), strictly)
  {
    hide Store, FullFile;
    if e.DoWrite? && ChainedBy(cfg, s, e).Some? && ChainedBy(cfg, s, e).value.appId == app {
      StoreSizes(cfg, App(s, app), ChainedBy(cfg, s, e).value, e.fault, strictly);
    }
  }

  /** Every rotated file holds at least rotateSize bytes, and when no index write failed
      less than rotateSize plus its last record. */
  lemma {:induction false} RotatedSizes(cfg: Config, run: seq<Event>, n: nat, app: string, strictly: bool)
    requires n <= |run| && cfg.rotateSize > 0
    requires strictly ==> forall i :: 0 <= i < n && run[i].DoWrite? ==> run[i].fault != IndexFails
    ensures SizeInv(cfg, App(After(cfg, run, n), app), strictly)
  {
    hide Step, SizeInv, IndexInv, Contents, RecordsOf;
    if n == 0 {
      NewAppSizes(cfg, strictly);
    } else {
      RotatedSizes(cfg, run, n - 1, app, strictly);
      AlwaysInv(cfg, run, n - 1, app);
      StepSizes(cfg, After(cfg, run, n - 1), run[n - 1], app, strictly);
    }
  }

  lemma NewAppSizes(cfg: Config, strictly: bool)
    ensures SizeInv(cfg, NEW_APP, strictly)
  {
  }

  // ---------- a run in which this happens ----------

  /** A log that names its app and its time. */
  predicate Filled(log: AuditLog) {
    log.appId != "" && log.timestamp != 0
  }

  function Written(log: AuditLog): Event {
    DoWrite(1, log, NoFault)
  }

  function Chained(c: Crypto, lastHash: string, log: AuditLog): AuditLog {
    var r := Link(c, lastHash, log);
    if r.Some? then r.value else log
  }

  lemma WriteStores(cfg: Config, s: State, log: AuditLog)
    requires Ideal(cfg.c) && Filled(log) && forall r :: cfg.c.encode(r).Some?
    ensures var rec := Chained(cfg.c, s.lastHash, log);
            var s1 := Step(cfg, s, Written(log));
            var a := App(s, log.appId);
            var f := CurrentFile(a, log.timestamp);
            var b := Append(cfg.c, a, f, rec);
            && rec.appId == log.appId && rec.timestamp == log.timestamp
            && rec.prevHash == s.lastHash && s1.lastHash == rec.hash && VerifyLog(cfg.c, rec)
            && App(s1, log.appId)
               == (if f.size + RecordSize(cfg.c, rec) >= cfg.rotateSize then CloseFile(b, true) else b)
            && (forall x :: x != log.appId ==> App(s1, x) == App(s, x))
  {
    hide Indexed;
    assert Complete(1, log) == log;
  }

  /** Two apps that take turns at writing. */
  function Turns(first: AuditLog, other: AuditLog, second: AuditLog): seq<Event> {
    [Written(first), Written(other), Written(second)]
  }

  /** A file is full with two records of the first app. */
  function TurnConfig(c: Crypto, first: AuditLog, other: AuditLog, second: AuditLog): Config {
    var r1 := Chained(c, "", first);
    var r2 := Chained(c, r1.hash, other);
    Config(c, RecordSize(c, r1) + RecordSize(c, Chained(c, r2.hash, second)))
  }

  /** The file of the first app is rotated once its second record fills it, and fails
      verification, although nothing was changed in it. */
  lemma InterleavedFileFails(c: Crypto, first: AuditLog, other: AuditLog, second: AuditLog)
    requires Ideal(c) && forall r :: c.encode(r).Some?
    requires Filled(first) && Filled(other) && Filled(second) && first.appId == second.appId != other.appId
    ensures var closed :=
            App(After(TurnConfig(c, first, other, second), Turns(first, other, second), 3), first.appId).closed;
            |closed| == 1 && closed[0].rotated && |closed[0].records| == 2 && !ChainIntact(c, closed[0].records)
  {
    hide Ideal, Indexed, Step, VerifyLog, Chained, RecordSize;
    var cfg, run := TurnConfig(c, first, other, second), Turns(first, other, second);
    var r1 := Chained(c, "", first);
    var r2 := Chained(c, r1.hash, other);
    var r3 := Chained(c, r2.hash, second);
    var s0, s1, s2 := After(cfg, run, 0), After(cfg, run, 1), After(cfg, run, 2);
    assert s1 == Step(cfg, s0, run[0]) && s2 == Step(cfg, s1, run[1]) && After(cfg, run, 3) == Step(cfg, s2, run[2]);
    WriteStores(cfg, s0, first);
    WriteStores(cfg, s1, other);
    WriteStores(cfg, s2, second);
    OneByte(c, r3);
    assert App(s2, first.appId).current == Some(OpenFile([] + [r1], RecordSize(c, r1), first.timestamp));
    var recs := [] + [r1] + [r3];
    assert App(After(cfg, run, 3), first.appId).closed == [] + [Segment(recs, true, first.timestamp)];
    assert recs[0] == r1 && recs[1] == r3;
    if r2.hash == r1.hash { SameHash(c, r1, r2); }
  }

  lemma OneByte(c: Crypto, rec: AuditLog)
    requires c.encode(rec).Some?
    ensures RecordSize(c, rec) > 0
  {
  }
}
