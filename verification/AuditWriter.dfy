/** The audit writer step by step over its maps of open files, sizes and indexes, tied to
    the writer of module AuditSegments. */
module AuditWriter {
  import opened Common
  import opened HashChain
  import opened AuditSegments

  /** A log file and the timestamp that its path was made from. */
  datatype LogFile = LogFile(openedAt: int, records: seq<AuditLog>)

  class Writer {
    const cfg: Config
    const hashChain: Chain
    var currentFiles: map<string, LogFile>
    var currentSizes: map<string, nat>
    var indexes: map<string, Index>
    var disk: map<string, seq<Segment>>  // the files that have been closed

    constructor (cfg: Config, hashChain: Chain)
      requires hashChain.c == cfg.c
      ensures this.cfg == cfg && this.hashChain == hashChain && Valid()
      ensures forall app :: View(app) == NEW_APP
    {
      this.cfg, this.hashChain := cfg, hashChain;
      currentFiles, currentSizes, indexes, disk := map[], map[], map[], map[];
    }

    ghost predicate Valid()
      reads this
    {
      hashChain.c == cfg.c && currentFiles.Keys == currentSizes.Keys
    }

    /** The files and the index of one app. */
    ghost function View(app: string): AppState
      reads this
      requires Valid()
    {
      AppState(if app in disk then disk[app] else [],
               if app !in currentFiles then None
               else Some(OpenFile(currentFiles[app].records, currentSizes[app], currentFiles[app].openedAt)),
               if app in indexes then Some(indexes[app]) else None)
    }

    ghost function Contents(): State
      reads this, hashChain
      requires Valid()
    {
      State(hashChain.lastHash, map app | app in disk.Keys + currentFiles.Keys + indexes.Keys :: View(app))
    }

    /** The writer holds what s says of every app. */
    ghost predicate Holds(s: State)
      reads this, hashChain
      requires Valid()
    {
      hashChain.lastHash == s.lastHash && forall app :: View(app) == App(s, app)
    }

    method GetCurrentFile(app: string, t: int, fault: Fault) returns (ok: bool)
      requires Valid()
      modifies this`currentFiles, this`currentSizes
      ensures Valid()
      ensures ok <==> app in old(currentFiles) || fault != OpenFails
      ensures ok ==> app in currentFiles
      ensures forall x :: View(x) ==
                          if x == app && ok then old(View(x)).(current := Some(CurrentFile(old(View(x)), t)))
                          else old(View(x))
    {
      if app in currentFiles { return true; }
      if fault == OpenFails { return false; }
      currentFiles := currentFiles[app := LogFile(t, [])];
      currentSizes := currentSizes[app := 0];
      return true;
    }

    method UpdateIndex(rec: AuditLog)
      requires Valid() && rec.appId in currentSizes
      modifies this`indexes
      ensures indexes == old(indexes)[rec.appId := Indexed(old(View(rec.appId)).index, rec, currentSizes[rec.appId])]
    {
      var app, t := rec.appId, rec.timestamp;
      var index := if app in indexes then indexes[app] else Index(t, t, map[], 0, 0);
      if t < index.start { index := index.(start := t); }
      if t > index.end { index := index.(end := t); }
      index := index.(events := index.events[rec.eventType := Count(index.events, rec.eventType) + 1]);
      index := index.(total := index.total + 1, size := currentSizes[app]);
      indexes := indexes[app := index];
    }

    /** The part of Write that puts the encoded record into the open file. */
    method AppendRecord(rec: AuditLog, data: string)
      requires Valid() && rec.appId in currentFiles && cfg.c.encode(rec) == Some(data)
      modifies this`currentFiles, this`currentSizes, this`indexes
      ensures Valid() && rec.appId in currentFiles
      ensures forall x :: View(x) ==
                          if x == rec.appId
                          then Append(cfg.c, old(View(x)), CurrentFile(old(View(x)), rec.timestamp), rec)
                          else old(View(x))
    {
      hide Indexed;
      var app := rec.appId;
      var file := currentFiles[app];
      currentFiles := currentFiles[app := file.(records := file.records + [rec])];
      currentSizes := currentSizes[app := currentSizes[app] + |data| + 1];
      UpdateIndex(rec);
    }

    /** rotate and Close both end a file like this. */
    method CloseCurrent(app: string, rotated: bool)
      requires Valid()
      modifies this`currentFiles, this`currentSizes, this`disk
      ensures Valid() && currentFiles.Keys == old(currentFiles.Keys) - {app}
      ensures forall x :: View(x) == if x == app then CloseFile(old(View(x)), rotated) else old(View(x))
    {
      if app in currentFiles {
        var closed := if app in disk then disk[app] else [];
        disk := disk[app := closed + [Segment(currentFiles[app].records, rotated, currentFiles[app].openedAt)]];
        currentFiles := currentFiles - {app};
        currentSizes := currentSizes - {app};
      }
    }

    /** The part of Write that follows the chaining of the record. */
    method StoreRecord(rec: AuditLog, fault: Fault) returns (r: Result<AuditLog, WriteError>)
      requires Valid()
      modifies this`currentFiles, this`currentSizes, this`indexes, this`disk
      ensures Valid()
      ensures (View(rec.appId), r) == Store(cfg, old(View(rec.appId)), rec, fault)
      ensures forall x :: x != rec.appId ==> View(x) == old(View(x))
    {
      hide Indexed;
      var app := rec.appId;
      var isOpen := GetCurrentFile(app, rec.timestamp, fault);
      if !isOpen { return Err(NotOpened); }
      var data := cfg.c.encode(rec);
      if data.None? { return Err(NotEncoded); }
      if fault == WriteFails { return Err(NotWritten); }
      AppendRecord(rec, data.value);
      if fault == IndexFails { return Err(NotIndexed); }
      if currentSizes[app] >= cfg.rotateSize { CloseCurrent(app, true); }
      return Ok(rec);
    }

    method Write(now: int, log: AuditLog, fault: Fault) returns (r: Result<AuditLog, WriteError>)
      requires Valid()
      modifies this, hashChain
      ensures Valid()
      ensures Holds(AuditSegments.Write(cfg, old(Contents()), now, log, fault).0)
      ensures r == AuditSegments.Write(cfg, old(Contents()), now, log, fault).1
    {
      hide Store;
      ghost var s := Contents();
      assert forall x :: View(x) == App(s, x);
      var linked := hashChain.AddLog(Complete(now, log));
      if linked.None? { return Err(NotChained); }
      r := StoreRecord(linked.value, fault);
    }

    /** Close ends the open files one by one, in any order. */
    method Close()
      requires Valid()
      modifies this
      ensures Valid() && Holds(AuditSegments.Close(old(Contents())))
    {
      while currentFiles.Keys != {}
        invariant Valid() && currentFiles.Keys <= old(currentFiles.Keys)
        invariant forall x :: View(x) == if x in currentFiles then old(View(x)) else CloseFile(old(View(x)), false)
        decreases currentFiles.Keys
      {
        var app :| app in currentFiles.Keys;
        CloseCurrent(app, false);
      }
    }
  }
}
