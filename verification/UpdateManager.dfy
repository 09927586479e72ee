/**
 The update of the agent's own binary, over a disk of three files. Every step may fail, a file
 being written may hold anything, and the process may die between any two writes.
 */
module UpdateManager {
  import opened Options

  /** The binary, its copy with suffix .bak, and the download with suffix .new. */
  datatype Path = Live | Backup | Fresh

  type Bytes = string
  type Disk = map<Path, Bytes>

  /** A copy in progress: the contents the target goes through, and whether the copy completes. */
  datatype Copy = Copy(partial: seq<Bytes>, completes: bool)

  /** A download: whether the target opens, the contents it then goes through, and curl's verdict. */
  datatype Download = Download(opens: bool, partial: seq<Bytes>, ok: bool)

  /** What the file system, curl and the service manager do during one update. */
  datatype Outcomes = Outcomes(
    backup: Copy,
    reports: bool, // the error text of a failed backup, which holds a path, is UTF-8: the message dumps
    download: Download,
    verifies: bool, // the download opens for reading and a digest context is available
    renames: bool,
    setsMode: bool, // fs::permissions does not throw after the rename
    removes: bool, // fs::remove does not throw
    restarts: bool,
    rollback: Copy,
    rollbackSetsMode: bool)

  datatype Step = BackingUp | Downloading | Verifying | Replacing | Restarting | Failed | RolledBack | Succeeded

  datatype Message = Progress(step: Step) | Result(success: bool)

  datatype Ending =
    | BackupFailed
    | DownloadFailed
    | Mismatch
    | ReplaceFailed(restored: bool)
    | RestartFailed(restored: bool)
    | Updated
    // an exception leaves update(): its thread has no handler, so the process ends
    | Escaped(before: Step)

  predicate RollsBack(ending: Ending) {
    ending.ReplaceFailed? || ending.RestartFailed?
  }

  /** How an update with an accepted download ends. */
  function InstallEnding(o: Outcomes): Ending {
    var restored := o.rollback.completes && o.rollbackSetsMode;
    if !o.renames then (if o.removes then ReplaceFailed(restored) else Escaped(Replacing))
    else if !o.setsMode then Escaped(Replacing)
    else if !o.restarts then RestartFailed(restored)
    else Updated
  }

  /** How an update ends once the backup is there. */
  function FetchEnding(digest: Bytes -> string, sha256: string, o: Outcomes): Ending {
    if Accepted(digest, sha256, o) then InstallEnding(o)
    else if o.download.opens && o.download.ok then (if o.removes then Mismatch else Escaped(Verifying))
    else (if o.removes then DownloadFailed else Escaped(Downloading))
  }

  function EndingOf(d: Disk, digest: Bytes -> string, sha256: string, o: Outcomes): Ending {
    if BackedUp(d, o) then FetchEnding(digest, sha256, o)
    else if o.reports then BackupFailed
    else Escaped(BackingUp)
  }

  predicate WithoutBackup(ending: Ending) {
    ending == BackupFailed || ending == Escaped(BackingUp)
  }

  function Messages(ending: Ending): seq<Message> {
    match ending
    case BackupFailed => [Result(false)]
    case Escaped(BackingUp) => []
    case DownloadFailed => [Progress(Downloading), Progress(Failed), Result(false)]
    case Mismatch => [Progress(Downloading), Progress(Verifying), Progress(Failed), Result(false)]
    case Escaped(Downloading) => [Progress(Downloading)]
    case Escaped(Verifying) => [Progress(Downloading), Progress(Verifying)]
    case _ => [Progress(Downloading), Progress(Verifying)] + InstallMessages(ending)
  }

  function InstallMessages(ending: Ending): seq<Message> {
    [Progress(Replacing)] + LastMessages(ending)
  }

  lemma JoinMessages(before: seq<Message>, last: seq<Message>)
    ensures before + [Progress(Replacing)] + last == before + ([Progress(Replacing)] + last)
  {
  }

  function LastMessages(ending: Ending): seq<Message> {
    match ending
    case ReplaceFailed(_) => [Progress(RolledBack), Result(false)]
    case RestartFailed(_) => [Progress(Restarting), Progress(RolledBack), Result(false)]
    case Updated => [Progress(Restarting), Progress(Succeeded), Result(true)]
    case _ => []
  }

  function Last(contents: seq<Bytes>): Bytes {
    if contents == [] then "" else contents[|contents| - 1]
  }

  /** The download completes and carries the expected digest; an empty digest skips the check. */
  predicate Accepted(digest: Bytes -> string, sha256: string, o: Outcomes) {
    && o.download.opens && o.download.ok
    && (sha256 == "" || (o.verifies && digest(Last(o.download.partial)) == sha256))
  }

  /** What the target of a copy goes through. */
  function CopyContents(d: Disk, source: Path, copy: Copy): seq<Bytes> {
    if source !in d then [] else if copy.completes then copy.partial + [d[source]] else copy.partial
  }

  predicate BackedUp(disk: Disk, o: Outcomes) {
    Live in disk && o.backup.completes
  }

  /** The live file is the original, or the accepted download with the original kept beside it. */
  ghost predicate Recoverable(original: Disk, digest: Bytes -> string, sha256: string, o: Outcomes, d: Disk) {
    || (Live in original && Live in d && d[Live] == original[Live])
    || (Live !in original && Live !in d)
    || (&& Live in original && Live in d && Backup in d
        && Accepted(digest, sha256, o) && d[Live] == Last(o.download.partial)
        && d[Backup] == original[Live])
  }

  /** The disks agree on every file but `path`. */
  ghost predicate AgreeBut(d: Disk, e: Disk, path: Path) {
    && (path == Live || SameFile(d, e, Live))
    && (path == Backup || SameFile(d, e, Backup))
    && (path == Fresh || SameFile(d, e, Fresh))
  }

  ghost predicate SameFile(d: Disk, e: Disk, p: Path) {
    (p in d <==> p in e) && (p in d && p in e ==> d[p] == e[p])
  }

  predicate Untouched(ending: Ending, o: Outcomes) {
    || ending.BackupFailed? || ending.DownloadFailed? || ending.Mismatch?
    || (ending.Escaped? && (ending.before != Replacing || !o.renames))
  }

  /** The three files when an update that began with `original` has ended. */
  ghost predicate Left(ending: Ending, original: Disk, d: Disk, o: Outcomes) {
    // the live file: replaced, restored, or never touched
    && (ending == Updated || (ending == Escaped(Replacing) && o.renames) ==>
        Live in d && d[Live] == Last(o.download.partial))
    && (RollsBack(ending) && o.rollback.completes ==> SameFile(d, original, Live))
    && (Untouched(ending, o) ==> SameFile(d, original, Live))
    // the backup and the download
    && (!WithoutBackup(ending) ==> Live in original && Backup in d && d[Backup] == original[Live])
    && (if WithoutBackup(ending) then SameFile(d, original, Fresh) else ending.Escaped? || Fresh !in d)
  }

  // ---------------------------------------------------------------- every state of the disk

  /** The states a disk goes through while one file takes these contents, one after the other. */
  function Written(d: Disk, path: Path, contents: seq<Bytes>): (states: seq<Disk>)
    ensures |states| == |contents|
    ensures forall i :: 0 <= i < |states| ==> states[i] == d[path := contents[i]]
  {
    seq(|contents|, i requires 0 <= i < |contents| => d[path := contents[i]])
  }

  function Renamed(d: Disk): Disk
    requires Fresh in d
  {
    d[Live := d[Fresh]] - {Fresh}
  }

  /** One operation of an update before any rollback: the live file changes by the rename only. */
  ghost predicate OneOperation(d: Disk, e: Disk) {
    || (Backup in e && e == d[Backup := e[Backup]])
    || (Fresh in e && e == d[Fresh := e[Fresh]])
    || (Fresh in d && e == Renamed(d))
    || e == d - {Fresh}
  }

  /** One write of a rollback. */
  ghost predicate OneRestore(d: Disk, e: Disk) {
    Live in e && e == d[Live := e[Live]]
  }

  /** From state `start` on, the trace goes on by writes to the live file. */
  ghost predicate RestoresFrom(start: int, trace: seq<Disk>) {
    0 <= start && forall i :: start <= i < |trace| - 1 ==> OneRestore(trace[i], trace[i + 1])
  }

  /** From state `start` up to `saved`, only the backup changes. */
  ghost predicate OnlyBackup(start: nat, saved: nat, trace: seq<Disk>) {
    start <= saved < |trace| && forall i :: start <= i <= saved ==> AgreeBut(trace[i], trace[start], Backup)
  }

  /** From state `saved` on, the backup stays as it is. */
  ghost predicate BackupStays(saved: nat, trace: seq<Disk>) {
    saved < |trace| && forall i :: saved <= i < |trace| ==> SameFile(trace[saved], trace[i], Backup)
  }

  lemma OnlyBackupStays(start: nat, saved: nat, trace: seq<Disk>, longer: seq<Disk>)
    requires OnlyBackup(start, saved, trace) && trace <= longer
    ensures OnlyBackup(start, saved, longer)
  {
    assert forall i :: 0 <= i < |trace| ==> trace[i] == longer[i];
  }

  lemma OnlyBackupWritten(trace: seq<Disk>, d: Disk, contents: seq<Bytes>)
    requires trace != [] && d == trace[|trace| - 1]
    ensures var longer := trace + Written(d, Backup, contents);
      OnlyBackup(|trace| - 1, |longer| - 1, longer)
  {
  }

  /** From state `start` up to `mark`, the trace goes on by single operations, and its states are recoverable. */
  ghost predicate SafeUpTo(start: nat, mark: nat, digest: Bytes -> string, sha256: string, o: Outcomes,
    trace: seq<Disk>)
  {
    && start < mark <= |trace|
    && (forall i :: start <= i < mark - 1 ==> OneOperation(trace[i], trace[i + 1]))
    && (forall i :: start <= i < mark ==> Recoverable(trace[start], digest, sha256, o, trace[i]))
  }

  ghost predicate SafeFrom(start: nat, digest: Bytes -> string, sha256: string, o: Outcomes, trace: seq<Disk>) {
    SafeUpTo(start, |trace|, digest, sha256, o, trace)
  }

  lemma SafeStays(start: nat, mark: nat, digest: Bytes -> string, sha256: string, o: Outcomes,
    trace: seq<Disk>, longer: seq<Disk>)
    requires SafeUpTo(start, mark, digest, sha256, o, trace) && trace <= longer
    ensures SafeUpTo(start, mark, digest, sha256, o, longer)
  {
    assert forall i :: 0 <= i < |trace| ==> trace[i] == longer[i];
  }

  lemma SafeStep(start: nat, digest: Bytes -> string, sha256: string, o: Outcomes, trace: seq<Disk>, e: Disk)
    requires SafeFrom(start, digest, sha256, o, trace)
    requires OneOperation(trace[|trace| - 1], e) && Recoverable(trace[start], digest, sha256, o, e)
    ensures SafeFrom(start, digest, sha256, o, trace + [e])
  {
  }

  /** Writing a file other than the live one is safe while the live one is the original. */
  lemma {:induction false} SafeWrites(start: nat, digest: Bytes -> string, sha256: string, o: Outcomes,
    trace: seq<Disk>, d: Disk, path: Path, contents: seq<Bytes>)
    requires SafeFrom(start, digest, sha256, o, trace) && path != Live
    requires SameFile(d, trace[start], Live) && d == trace[|trace| - 1]
    ensures SafeFrom(start, digest, sha256, o, trace + Written(d, path, contents))
  {
    if contents == [] {
      assert trace + Written(d, path, contents) == trace;
    } else {
      var n := |contents| - 1;
      var front := Written(d, path, contents[..n]);
      SafeWrites(start, digest, sha256, o, trace, d, path, contents[..n]);
      assert trace + Written(d, path, contents) == (trace + front) + [d[path := contents[n]]];
      SafeStep(start, digest, sha256, o, trace + front, d[path := contents[n]]);
    }
  }

  class UpdateManager {
    const digest: Bytes -> string
    var published: seq<Message>
    /** Every state the disk has been in; it is now in the last one. Nothing ever leaves this record. */
    var trace: seq<Disk>

    constructor (digest: Bytes -> string, disk: Disk)
      ensures Valid() && this.digest == digest && trace == [disk] && published == []
    {
      this.digest := digest;
      published, trace := [], [disk];
    }

    ghost predicate Valid()
      reads this
    {
      trace != []
    }

    function Disk(): Disk
      requires Valid()
      reads this
    {
      trace[|trace| - 1]
    }

    method Publish(m: Message)
      modifies this`published
      ensures published == old(published) + [m]
    {
      published := published + [m];
    }

    /** A file takes these contents, one after the other. */
    method Write(path: Path, contents: seq<Bytes>)
      requires Valid()
      modifies this`trace
      ensures Valid() && trace == old(trace) + Written(old(Disk()), path, contents)
      ensures Disk() == if contents == [] then old(Disk()) else old(Disk())[path := Last(contents)]
    {
      ghost var d := Disk();
      for i := 0 to |contents|
        invariant trace == old(trace) + Written(d, path, contents[..i])
        invariant i > 0 ==> trace[|trace| - 1] == d[path := contents[i - 1]]
      {
        ghost var before := trace;
        trace := trace + [Disk()[path := contents[i]]];
        assert contents[..i + 1] == contents[..i] + [contents[i]];
        assert Disk() == d[path := contents[i]];
        assert Written(d, path, contents[..i + 1]) == Written(d, path, contents[..i]) + [d[path := contents[i]]];
      }
      assert contents[..|contents|] == contents;
    }

    /** fs::copy_file with overwrite; an exception is `false`. */
    method CopyFile(source: Path, target: Path, copy: Copy) returns (ok: bool)
      requires Valid() && source != target
      modifies this`trace
      ensures Valid() && AgreeBut(Disk(), old(Disk()), target)
      ensures trace == old(trace) + Written(old(Disk()), target, CopyContents(old(Disk()), source, copy))
      ensures ok <==> source in old(Disk()) && copy.completes
      ensures ok ==> target in Disk() && Disk()[target] == old(Disk())[source]
    {
      if source !in Disk() {
        return false;
      }
      if copy.completes {
        Write(target, copy.partial + [Disk()[source]]);
      } else {
        Write(target, copy.partial);
      }
      return copy.completes;
    }

    method DownloadBinary(download: Download) returns (ok: bool)
      requires Valid()
      modifies this`trace
      ensures Valid() && AgreeBut(Disk(), old(Disk()), Fresh)
      ensures trace == old(trace) + Written(old(Disk()), Fresh, if download.opens then [""] + download.partial else [])
      ensures ok <==> download.opens && download.ok
      ensures ok ==> Fresh in Disk() && Disk()[Fresh] == Last(download.partial)
    {
      if !download.opens {
        return false;
      }
      Write(Fresh, [""] + download.partial);
      return download.ok;
    }

    method VerifySha256(sha256: string, verifies: bool) returns (ok: bool)
      requires Valid()
      ensures ok <==> verifies && Fresh in Disk() && digest(Disk()[Fresh]) == sha256
    {
      if !verifies || Fresh !in Disk() {
        return false;
      }
      return digest(Disk()[Fresh]) == sha256;
    }

    /** rename() moves the download over the live file in one step. */
    method Rename(renames: bool) returns (ok: bool)
      requires Valid() && Fresh in Disk()
      modifies this`trace
      ensures Valid() && ok == renames
      ensures trace == old(trace) + if renames then [Renamed(old(Disk()))] else []
    {
      if renames {
        trace := trace + [Renamed(Disk())];
      }
      return renames;
    }

    /** fs::remove; an exception is `false`, a missing file is not. */
    method Remove(removes: bool) returns (ok: bool)
      requires Valid()
      modifies this`trace
      ensures Valid() && ok == removes
      ensures trace == old(trace) + if removes then [old(Disk()) - {Fresh}] else []
    {
      if removes {
        trace := trace + [Disk() - {Fresh}];
      }
      return removes;
    }

    /** Overwrites the live file in place. */
    method Rollback(rollback: Copy, setsMode: bool) returns (ok: bool)
      requires Valid()
      modifies this`trace
      ensures Valid() && AgreeBut(Disk(), old(Disk()), Live)
      ensures trace == old(trace) + Written(old(Disk()), Live, CopyContents(old(Disk()), Backup, rollback))
      ensures ok <==> Backup in old(Disk()) && rollback.completes && setsMode
      ensures Backup in old(Disk()) && rollback.completes ==> Live in Disk() && Disk()[Live] == old(Disk())[Backup]
    {
      ok := CopyFile(Backup, Live, rollback);
      return ok && setsMode;
    }

    /** Step 2. */
    method BackUp(ghost start: nat, ghost sha256: string, o: Outcomes) returns (ok: bool)
      requires SafeFrom(start, digest, sha256, o, trace) && start == |trace| - 1
      modifies this`trace
      ensures old(trace) <= trace && SafeFrom(start, digest, sha256, o, trace)
      ensures OnlyBackup(start, |trace| - 1, trace)
      ensures AgreeBut(Disk(), old(Disk()), Backup)
      ensures ok <==> BackedUp(old(Disk()), o)
      ensures ok ==> Backup in Disk() && Disk()[Backup] == old(Disk())[Live]
    {
      OnlyBackupWritten(trace, Disk(), CopyContents(Disk(), Live, o.backup));
      SafeWrites(start, digest, sha256, o, trace, Disk(), Backup, CopyContents(Disk(), Live, o.backup));
      ok := CopyFile(Live, Backup, o.backup);
    }

    /** Step 3. */
    method Download(ghost start: nat, ghost sha256: string, o: Outcomes) returns (ok: bool)
      requires SafeFrom(start, digest, sha256, o, trace) && SameFile(Disk(), trace[start], Live)
      modifies this`trace
      ensures old(trace) <= trace && SafeFrom(start, digest, sha256, o, trace)
      ensures BackupStays(|old(trace)| - 1, trace)
      ensures AgreeBut(Disk(), old(Disk()), Fresh)
      ensures ok <==> o.download.opens && o.download.ok
      ensures ok ==> Fresh in Disk() && Disk()[Fresh] == Last(o.download.partial)
    {
      ghost var contents := if o.download.opens then [""] + o.download.partial else [];
      SafeWrites(start, digest, sha256, o, trace, Disk(), Fresh, contents);
      ok := DownloadBinary(o.download);
    }

    /** Steps 3 and 4: download and verify. The answer is the step that failed, if any. */
    method DownloadAndVerify(ghost start: nat, sha256: string, o: Outcomes) returns (failed: Option<Step>)
      requires SafeFrom(start, digest, sha256, o, trace) && SameFile(Disk(), trace[start], Live)
      modifies this
      ensures old(trace) <= trace && SafeFrom(start, digest, sha256, o, trace)
      ensures BackupStays(|old(trace)| - 1, trace)
      ensures AgreeBut(Disk(), old(Disk()), Fresh)
      ensures failed == None <==> Accepted(digest, sha256, o)
      ensures failed == None ==> Fresh in Disk() && Disk()[Fresh] == Last(o.download.partial)
      ensures failed == None || failed == Some(Downloading) || failed == Some(Verifying)
      ensures failed == Some(Downloading) <==> !(o.download.opens && o.download.ok)
      ensures published == old(published) +
        (if failed == Some(Downloading) then [Progress(Downloading)] else [Progress(Downloading), Progress(Verifying)])
    {
      Publish(Progress(Downloading));
      var downloaded := Download(start, sha256, o);
      if !downloaded {
        return Some(Downloading);
      }
      Publish(Progress(Verifying));
      if sha256 != "" {
        var verified := VerifySha256(sha256, o.verifies);
        if !verified {
          return Some(Verifying);
        }
      }
      return None;
    }

    /** Removes the download while the live file is the original. */
    method Drop(ghost start: nat, ghost sha256: string, o: Outcomes) returns (ok: bool)
      requires SafeFrom(start, digest, sha256, o, trace) && SameFile(Disk(), trace[start], Live)
      modifies this`trace
      ensures old(trace) <= trace && SafeFrom(start, digest, sha256, o, trace)
      ensures BackupStays(|old(trace)| - 1, trace)
      ensures AgreeBut(Disk(), old(Disk()), Fresh)
      ensures ok == o.removes && (ok ==> Fresh !in Disk())
    {
      SafeStep(start, digest, sha256, o, trace, Disk() - {Fresh});
      ok := Remove(o.removes);
    }

    /** Gives up at a step, unless removing the download throws. */
    method Abandon(ghost start: nat, ghost sha256: string, o: Outcomes, step: Step) returns (ending: Ending)
      requires SafeFrom(start, digest, sha256, o, trace) && SameFile(Disk(), trace[start], Live)
      requires Live in Disk() && Backup in Disk() && Disk()[Backup] == Disk()[Live]
      requires step == Downloading || step == Verifying
      modifies this
      ensures old(trace) <= trace && SafeFrom(start, digest, sha256, o, trace)
      ensures BackupStays(|old(trace)| - 1, trace)
      ensures AgreeBut(Disk(), old(Disk()), Fresh) && Left(ending, trace[start], Disk(), o)
      ensures ending == if !o.removes then Escaped(step) else if step == Downloading then DownloadFailed else Mismatch
      ensures published == old(published) + if o.removes then [Progress(Failed), Result(false)] else []
    {
      var removed := Drop(start, sha256, o);
      if !removed {
        return Escaped(step);
      }
      Publish(Progress(Failed));
      Publish(Result(false));
      return if step == Downloading then DownloadFailed else Mismatch;
    }

    /** Steps 3 and 4, and their failures. `None` means that the download may replace the live file. */
    method Fetch(ghost start: nat, sha256: string, o: Outcomes) returns (ending: Option<Ending>)
      requires SafeFrom(start, digest, sha256, o, trace) && SameFile(Disk(), trace[start], Live)
      requires Live in Disk() && Backup in Disk() && Disk()[Backup] == Disk()[Live]
      modifies this
      ensures old(trace) <= trace && SafeFrom(start, digest, sha256, o, trace)
      ensures BackupStays(|old(trace)| - 1, trace)
      ensures AgreeBut(Disk(), old(Disk()), Fresh)
      ensures ending == None <==> Accepted(digest, sha256, o)
      ensures ending == None ==> Fresh in Disk() && Disk()[Fresh] == Last(o.download.partial)
      ensures ending.Some? ==>
        ending.value == FetchEnding(digest, sha256, o) && Left(ending.value, trace[start], Disk(), o)
      ensures published == old(published) +
        (if ending.Some? then Messages(ending.value) else [Progress(Downloading), Progress(Verifying)])
    {
      var failed := DownloadAndVerify(start, sha256, o);
      if failed == None {
        return None;
      }
      var failure := Abandon(start, sha256, o, failed.value);
      return Some(failure);
    }

    /** Rolls back and reports it, whether or not the copy completes. */
    method Undo(ghost original: Disk, o: Outcomes) returns (restored: bool)
      requires Valid() && Live in original && Backup in Disk() && Disk()[Backup] == original[Live]
      modifies this
      ensures Valid() && AgreeBut(Disk(), old(Disk()), Live)
      ensures old(trace) <= trace && RestoresFrom(|old(trace)| - 1, trace)
      ensures BackupStays(|old(trace)| - 1, trace)
      ensures restored <==> o.rollback.completes && o.rollbackSetsMode
      ensures o.rollback.completes ==> SameFile(Disk(), original, Live)
      ensures published == old(published) + [Progress(RolledBack), Result(false)]
    {
      restored := Rollback(o.rollback, o.rollbackSetsMode);
      Publish(Progress(RolledBack));
      Publish(Result(false));
      assert RestoresFrom(|old(trace)| - 1, trace);
    }

    /** Step 5: the accepted download becomes the live file, with the original in the backup, or nothing happens. */
    method ReplaceBinary(ghost start: nat, ghost sha256: string, o: Outcomes) returns (ok: bool)
      requires SafeFrom(start, digest, sha256, o, trace) && SameFile(Disk(), trace[start], Live)
      requires Live in Disk() && Backup in Disk() && Disk()[Backup] == Disk()[Live]
      requires Fresh in Disk() && Disk()[Fresh] == Last(o.download.partial) && Accepted(digest, sha256, o)
      modifies this`trace
      ensures old(trace) <= trace && SafeFrom(start, digest, sha256, o, trace) && ok == o.renames
      ensures BackupStays(|old(trace)| - 1, trace)
      ensures !ok ==> trace == old(trace)
      ensures ok ==> Disk() == Renamed(old(Disk()))
    {
      SafeStep(start, digest, sha256, o, trace, Renamed(Disk()));
      ok := Rename(o.renames);
    }

    /** Step 5 after a rename that failed: the live file is untouched, and still copied over. */
    method KeepOld(ghost start: nat, ghost sha256: string, o: Outcomes) returns (ending: Ending, ghost mark: nat)
      requires SafeFrom(start, digest, sha256, o, trace) && SameFile(Disk(), trace[start], Live)
      requires Live in Disk() && Backup in Disk() && Disk()[Backup] == Disk()[Live] && !o.renames
      modifies this
      ensures old(trace) <= trace && |old(trace)| <= mark <= |trace|
      ensures BackupStays(|old(trace)| - 1, trace)
      ensures SafeUpTo(start, mark, digest, sha256, o, trace) && RestoresFrom(mark - 1, trace)
      ensures ending == InstallEnding(o) && Left(ending, trace[start], Disk(), o)
      ensures !RollsBack(ending) ==> mark == |trace|
      ensures published == old(published) + LastMessages(ending)
    {
      var removed := Drop(start, sha256, o);
      mark := |trace|;
      if !removed {
        return Escaped(Replacing), mark;
      }
      ghost var safe := trace;
      var restored := Undo(trace[start], o);
      SafeStays(start, mark, digest, sha256, o, safe, trace);
      return ReplaceFailed(restored), mark;
    }

    /** Steps 5 and 6 after the rename. */
    method Settle(ghost start: nat, ghost sha256: string, o: Outcomes) returns (ending: Ending, ghost mark: nat)
      requires SafeFrom(start, digest, sha256, o, trace) && o.renames
      requires Live in trace[start] && Backup in Disk() && Disk()[Backup] == trace[start][Live]
      requires Fresh !in Disk() && Live in Disk() && Disk()[Live] == Last(o.download.partial)
      modifies this
      ensures old(trace) <= trace && mark == |old(trace)|
      ensures BackupStays(|old(trace)| - 1, trace)
      ensures SafeUpTo(start, mark, digest, sha256, o, trace) && RestoresFrom(mark - 1, trace)
      ensures ending == InstallEnding(o) && Left(ending, trace[start], Disk(), o)
      ensures !RollsBack(ending) ==> mark == |trace|
      ensures published == old(published) + LastMessages(ending)
    {
      mark := |trace|;
      if !o.setsMode {
        return Escaped(Replacing), mark;
      }
      Publish(Progress(Restarting));
      if !o.restarts {
        ghost var safe := trace;
        var restored := Undo(trace[start], o);
        SafeStays(start, mark, digest, sha256, o, safe, trace);
        return RestartFailed(restored), mark;
      }
      Publish(Progress(Succeeded));
      Publish(Result(true));
      return Updated, mark;
    }

    /** Steps 5 and 6: replace the live file, restart, and roll back if either fails. */
    method Install(ghost start: nat, ghost sha256: string, o: Outcomes) returns (ending: Ending, ghost mark: nat)
      requires SafeFrom(start, digest, sha256, o, trace) && SameFile(Disk(), trace[start], Live)
      requires Live in Disk() && Backup in Disk() && Disk()[Backup] == Disk()[Live]
      requires Fresh in Disk() && Disk()[Fresh] == Last(o.download.partial) && Accepted(digest, sha256, o)
      modifies this
      ensures old(trace) <= trace && |old(trace)| <= mark <= |trace|
      ensures BackupStays(|old(trace)| - 1, trace)
      ensures SafeUpTo(start, mark, digest, sha256, o, trace) && RestoresFrom(mark - 1, trace)
      ensures ending == InstallEnding(o) && Left(ending, trace[start], Disk(), o)
      ensures !RollsBack(ending) ==> mark == |trace|
      ensures published == old(published) + InstallMessages(ending)
    {
      ghost var d, before := Disk(), published;
      Publish(Progress(Replacing));
      var replaced := ReplaceBinary(start, sha256, o);
      assert SameFile(Disk(), d, Backup);
      if replaced {
        ending, mark := Settle(start, sha256, o);
      } else {
        ending, mark := KeepOld(start, sha256, o);
      }
      JoinMessages(before, LastMessages(ending));
    }

    /** Steps 3 to 6. */
    method Continue(ghost start: nat, sha256: string, o: Outcomes) returns (ending: Ending, ghost mark: nat)
      requires SafeFrom(start, digest, sha256, o, trace) && SameFile(Disk(), trace[start], Live)
      requires Live in Disk() && Backup in Disk() && Disk()[Backup] == Disk()[Live]
      modifies this
      ensures old(trace) <= trace && |old(trace)| <= mark <= |trace|
      ensures BackupStays(|old(trace)| - 1, trace)
      ensures SafeUpTo(start, mark, digest, sha256, o, trace) && RestoresFrom(mark - 1, trace)
      ensures RollsBack(ending) || mark == |trace|
      ensures ending == FetchEnding(digest, sha256, o) && Left(ending, trace[start], Disk(), o)
      ensures published == old(published) + Messages(ending)
    {
      var early := Fetch(start, sha256, o);
      if early.Some? {
        return early.value, |trace|;
      }
      ending, mark := Install(start, sha256, o);
    }

    /**
     One update. Every state the disk is in is on record. Up to `saved` only the backup is written; from
     then on it is the original, in every state, if the update goes on. Up to `mark`, where a rollback
     starts, states come by single operations and are recoverable: a crash at any point loses nothing.
     */
    method Update(sha256: string, o: Outcomes) returns (ending: Ending, ghost saved: nat, ghost mark: nat)
      requires Valid()
      modifies this
      ensures Valid() && old(trace) <= trace && |old(trace)| <= mark <= |trace|
      ensures OnlyBackup(|old(trace)| - 1, saved, trace) && BackupStays(saved, trace)
      ensures if BackedUp(old(Disk()), o) then Backup in trace[saved] && trace[saved][Backup] == old(Disk())[Live]
        else saved == |trace| - 1
      ensures SafeUpTo(|old(trace)| - 1, mark, digest, sha256, o, trace)
      ensures RestoresFrom(mark - 1, trace) && (RollsBack(ending) || mark == |trace|)
      ensures ending == EndingOf(old(Disk()), digest, sha256, o) && Left(ending, old(Disk()), Disk(), o)
      ensures published == old(published) + Messages(ending)
    {
      ghost var start: nat := |trace| - 1;
      var backedUp := BackUp(start, sha256, o);
      saved, mark := |trace| - 1, |trace|;
      if !backedUp {
        if !o.reports {
          return Escaped(BackingUp), saved, mark;
        }
        Publish(Result(false));
        return BackupFailed, saved, mark;
      }
      ghost var before := trace;
      ending, mark := Continue(start, sha256, o);
      OnlyBackupStays(start, saved, before, trace);
    }
  }

  // ---------------------------------------------------------------- what the messages and the disk tell

  /** How each update ends, in terms of the single steps: the first that fails decides. */
  lemma EndingExactly(d: Disk, digest: Bytes -> string, sha256: string, o: Outcomes)
    ensures var ending, saved := EndingOf(d, digest, sha256, o), Live in d && o.backup.completes;
      var arrived := saved && o.download.opens && o.download.ok;
      var checked := arrived && (sha256 == "" || (o.verifies && digest(Last(o.download.partial)) == sha256));
      var running := checked && o.renames && o.setsMode;
      // up to the check
      && (ending == BackupFailed <==> !saved && o.reports)
      && (ending == Escaped(BackingUp) <==> !saved && !o.reports)
      && (ending == DownloadFailed <==> saved && !arrived && o.removes)
      && (ending == Escaped(Downloading) <==> saved && !arrived && !o.removes)
      && (ending == Mismatch <==> arrived && !checked && o.removes)
      && (ending == Escaped(Verifying) <==> arrived && !checked && !o.removes)
      // from the rename on
      && (ending == Escaped(Replacing) <==> checked && if o.renames then !o.setsMode else !o.removes)
      && (ending.ReplaceFailed? <==> checked && !o.renames && o.removes)
      && (ending.RestartFailed? <==> running && !o.restarts)
      && (ending == Updated <==> running && o.restarts)
      && (ending.ReplaceFailed? || ending.RestartFailed? ==>
          (ending.restored <==> o.rollback.completes && o.rollbackSetsMode))
  {
  }

  /** Which outcome the server is told of, if any. */
  lemma OutcomeTold(ending: Ending)
    ensures Progress(Succeeded) in Messages(ending) <==> ending == Updated
    ensures Progress(RolledBack) in Messages(ending) <==> ending.ReplaceFailed? || ending.RestartFailed?
    ensures Progress(Failed) in Messages(ending) <==> ending == DownloadFailed || ending == Mismatch
  {
  }

  /** The update has come to the step of replacing the live file. */
  predicate GotToReplacing(ending: Ending) {
    || ending == Updated || ending.RestartFailed? || ending.ReplaceFailed?
    || (ending.Escaped? && ending.before !in [BackingUp, Downloading, Verifying])
  }

  /** Which steps it is told of: those the update has come to. */
  lemma StepsTold(ending: Ending)
    ensures Progress(BackingUp) !in Messages(ending)
    ensures Progress(Downloading) in Messages(ending) <==> ending != BackupFailed && ending != Escaped(BackingUp)
    ensures Progress(Verifying) in Messages(ending) <==>
      GotToReplacing(ending) || ending == Mismatch || ending == Escaped(Verifying)
    ensures Progress(Replacing) in Messages(ending) <==> GotToReplacing(ending)
    ensures Progress(Restarting) in Messages(ending) <==> ending == Updated || ending.RestartFailed?
  {
  }

  /** Where a step stands in the workflow; the last three are outcomes, of which there is one. */
  function Rank(step: Step): nat {
    match step
    case BackingUp => 0
    case Downloading => 1
    case Verifying => 2
    case Replacing => 3
    case Restarting => 4
    case _ => 5
  }

  /** The steps are told in the order of the workflow, each at most once; an outcome directly before the result. */
  lemma StepsInOrder(ending: Ending, i: nat, j: nat)
    requires i < j < |Messages(ending)| && Messages(ending)[i].Progress?
    ensures Messages(ending)[j].Progress? ==> Rank(Messages(ending)[i].step) < Rank(Messages(ending)[j].step)
    ensures Rank(Messages(ending)[i].step) == 5 ==> j == i + 1 == |Messages(ending)| - 1 && Messages(ending)[j].Result?
  {
  }

  /** The server gets one result, at the end, true for an update only; none exactly when an exception escapes. */
  lemma OneResult(ending: Ending, i: nat)
    requires i < |Messages(ending)|
    ensures Messages(ending)[i].Result? <==> !ending.Escaped? && i == |Messages(ending)| - 1
    ensures Messages(ending)[i].Result? ==> (Messages(ending)[i].success <==> ending == Updated)
  {
  }

  /** Whatever a crash leaves: the original is still there, and the live file is the original or passed the check. */
  lemma NothingLost(original: Disk, digest: Bytes -> string, sha256: string, o: Outcomes, d: Disk)
    requires Live in original && sha256 != "" && Recoverable(original, digest, sha256, o, d)
    ensures Live in d && (d[Live] == original[Live] || digest(d[Live]) == sha256)
    ensures d[Live] == original[Live] || (Backup in d && d[Backup] == original[Live])
  {
  }

  /** A way to lose the result although every file is written: the mode bits fail on a binary already in place. */
  method ModeFailure() returns (manager: UpdateManager)
    ensures manager.Valid() && Live in manager.Disk() && manager.Disk()[Live] == "new"
    ensures manager.published == [Progress(Downloading), Progress(Verifying), Progress(Replacing)]
  {
    var copies := Copy([], true);
    var o := Outcomes(copies, true, Download(true, ["new"], true), true, true, false, true, true, copies, true);
    manager := new UpdateManager((b: Bytes) => b, map[Live := "old"]);
    var ending, saved, mark := manager.Update("new", o);
    assert Last(["new"]) == "new" && BackedUp(map[Live := "old"], o);
  }
}
