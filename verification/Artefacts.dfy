/**
 What is on disk while the updates of one type are applied. The artefact of an update is downloaded to
 a file named after its module and version, so that two updates may share a file: the later download
 then replaces the earlier one.

 A disk maps each file to the position of the update whose artefact it holds, and `file` says which
 file the artefact of an update goes to.
 */
module Artefacts {
  import opened Basics
  import opened SoftwareUpdates
  import opened SoftwarePlugins

  /** A download that fails leaves the file as it was, and a cleanup removes it. */
  ghost function OnDisk<F>(file: nat -> F, disk: map<F, nat>, c: Call, ok: bool): map<F, nat> {
    match c
    case Download(i) => if ok then disk[file(i) := i] else disk
    case Cleanup(i) => disk - {file(i)}
    case _ => disk
  }

  /** The disk once the calls are made, starting without any artefact. */
  ghost function DiskAfter<F>(p: Plugin, env: Env, file: nat -> F, start: seq<Call>, calls: seq<Call>): map<F, nat> {
    if calls == [] then map[]
    else
      var n := |calls| - 1;
      OnDisk(file, DiskAfter(p, env, file, start, calls[..n]), calls[n], env(p, start + calls[..n], calls[n]).Ok?)
  }

  lemma DiskSnoc<F>(p: Plugin, env: Env, file: nat -> F, start: seq<Call>, calls: seq<Call>, c: Call)
    ensures DiskAfter(p, env, file, start, calls + [c])
            == OnDisk(file, DiskAfter(p, env, file, start, calls), c, env(p, start + calls, c).Ok?)
  {
    assert (calls + [c])[..|calls|] == calls;
  }

  // ---------------------------------------------------------------- downloads

  /** The disk after these downloads, all successful, in this order. */
  ghost function Written<F>(file: nat -> F, indices: seq<nat>): map<F, nat> {
    if indices == [] then map[]
    else
      var n := |indices| - 1;
      Written(file, indices[..n])[file(indices[n]) := indices[n]]
  }

  /** One of these updates is downloaded to this file. */
  ghost predicate Uses<F>(file: nat -> F, indices: seq<nat>, f: F) {
    indices != [] && (file(indices[|indices| - 1]) == f || Uses(file, indices[..|indices| - 1], f))
  }

  lemma {:induction false} WrittenFiles<F>(file: nat -> F, indices: seq<nat>, f: F)
    ensures f in Written(file, indices) <==> Uses(file, indices, f)
  {
    if indices != [] {
      WrittenFiles(file, indices[..|indices| - 1], f);
    }
  }

  lemma WrittenNext<F>(file: nat -> F, indices: seq<nat>, k: nat)
    requires k < |indices|
    ensures Written(file, indices[..k + 1]) == Written(file, indices[..k])[file(indices[k]) := indices[k]]
  {
    assert indices[..k + 1][..k] == indices[..k];
  }

  /** A file holds the artefact of the last update downloaded to it. */
  lemma {:induction false} LastOneStays<F>(file: nat -> F, indices: seq<nat>, k: nat, n: nat)
    requires Increasing(indices) && k < n <= |indices|
    ensures var disk, f := Written(file, indices[..n]), file(indices[k]);
            && f in disk
            && (disk[f] == indices[k] <==> forall l :: k < l < n ==> file(indices[l]) != f)
    decreases n
  {
    WrittenNext(file, indices, n - 1);
    if k < n - 1 {
      LastOneStays(file, indices, k, n - 1);
      assert indices[k] < indices[n - 1];
    }
  }

  lemma {:induction false} DiskAfterDownloads<F>(p: Plugin, env: Env, file: nat -> F, start: seq<Call>,
                                             wanted: seq<nat>, k: nat)
    requires FirstSucceed(p, env, start + [PrepareCall], wanted, k)
    ensures DiskAfter(p, env, file, start, [PrepareCall] + Downloads(wanted[..k])) == Written(file, wanted[..k])
  {
    if k == 0 {
      assert [PrepareCall] + Downloads(wanted[..k]) == [PrepareCall];
      JustPrepared(p, env, file, start);
    } else {
      DiskAfterDownloads(p, env, file, start, wanted, k - 1);
      assert SucceedsAt(p, env, start + [PrepareCall], wanted, k - 1);
      NextDownload(p, env, file, start, wanted, k - 1);
      WrittenNext(file, wanted, k - 1);
    }
  }

  lemma JustPrepared<F>(p: Plugin, env: Env, file: nat -> F, start: seq<Call>)
    ensures DiskAfter(p, env, file, start, [PrepareCall]) == map[]
  {
    DiskSnoc(p, env, file, start, [], PrepareCall);
    assert [] + [PrepareCall] == [PrepareCall];
  }

  lemma NextDownload<F>(p: Plugin, env: Env, file: nat -> F, start: seq<Call>, wanted: seq<nat>, k: nat)
    requires k < |wanted|
    ensures var calls := [PrepareCall] + Downloads(wanted[..k]);
            DiskAfter(p, env, file, start, [PrepareCall] + Downloads(wanted[..k + 1]))
            == OnDisk(file, DiskAfter(p, env, file, start, calls), Download(wanted[k]),
                      SucceedsAt(p, env, start + [PrepareCall], wanted, k))
  {
    var calls := [PrepareCall] + Downloads(wanted[..k]);
    assert [PrepareCall] + Downloads(wanted[..k + 1]) == calls + [Download(wanted[k])];
    assert start + calls == start + [PrepareCall] + Downloads(wanted[..k]);
    DiskSnoc(p, env, file, start, calls, Download(wanted[k]));
  }

  /** After the downloads the disk holds what was downloaded, whether or not one failed. */
  lemma DiskOnceAttempted<F>(p: Plugin, env: Env, file: nat -> F, start: seq<Call>, us: seq<Update>)
    ensures DiskAfter(p, env, file, start, [PrepareCall] + Downloads(Attempted(p, env, start, us)))
            == Written(file, Downloaded(p, env, start, us))
  {
    var wanted, base := Wanted(us, |us|), start + [PrepareCall];
    var k := Succeeding(p, env, base, wanted);
    FirstFailureStops(p, env, base, wanted, 0);
    DiskAfterDownloads(p, env, file, start, wanted, k);
    if k < |wanted| {
      NextDownload(p, env, file, start, wanted, k);
    } else {
      assert wanted[..k] == wanted;
    }
  }

  // ---------------------------------------------------------------- the file an update is handed

  ghost function FileOf(us: seq<Update>): nat -> string {
    (i: nat) => if i < |us| then SmPath(us[i].mod) else ""
  }

  /** The disk when the plugin is offered the updates. */
  ghost function DiskOnceReady(p: Plugin, env: Env, start: seq<Call>, us: seq<Update>): map<string, nat> {
    DiskAfter(p, env, FileOf(us), start, [PrepareCall] + Downloads(Wanted(us, |us|)))
  }

  /**
   Once ready, the plugin is handed each update that has a URL with the file its own artefact is in, if
   and only if no later update that has a URL is downloaded to the same file.
   */
  lemma OwnFileIff(p: Plugin, env: Env, start: seq<Call>, us: seq<Update>, i: nat)
    requires Ready(p, env, start, us) && i < |us| && us[i].mod.url.Some?
    ensures var disk, handed := DiskOnceReady(p, env, start, us), WithFiles(us)[i].mod.filePath;
            && handed.Some? && handed.value in disk
            && (disk[handed.value] == i <==>
                forall j :: i < j < |us| && us[j].mod.url.Some? ==> SmPath(us[j].mod) != handed.value)
  {
    assert Downloaded(p, env, start, us) == Wanted(us, |us|) by {
      ReadyIff(p, env, start, us);
    }
    OwnFileOnceDownloaded(p, env, start, us, i);
  }

  lemma OwnFileOnceDownloaded(p: Plugin, env: Env, start: seq<Call>, us: seq<Update>, i: nat)
    requires Downloaded(p, env, start, us) == Wanted(us, |us|) && i < |us| && us[i].mod.url.Some?
    ensures var disk, file := DiskOnceReady(p, env, start, us), SmPath(us[i].mod);
            && file in disk
            && (disk[file] == i <==>
                forall j :: i < j < |us| && us[j].mod.url.Some? ==> SmPath(us[j].mod) != file)
  {
    AttemptedOnceDownloaded(p, env, start, us);
    DiskOnceAttempted(p, env, FileOf(us), start, us);
    OwnFileWritten(us, i);
  }

  lemma OwnFileWritten(us: seq<Update>, i: nat)
    requires i < |us| && us[i].mod.url.Some?
    ensures var disk, file := Written(FileOf(us), Wanted(us, |us|)), SmPath(us[i].mod);
            && file in disk
            && (disk[file] == i <==>
                forall j :: i < j < |us| && us[j].mod.url.Some? ==> SmPath(us[j].mod) != file)
  {
    var wanted := Wanted(us, |us|);
    WantedAre(us, |us|);
    assert i in wanted;
    var k :| 0 <= k < |wanted| && wanted[k] == i;
    LastOneStays(FileOf(us), wanted, k, |wanted|);
    assert wanted[..|wanted|] == wanted;
    LaterUsers(us, k, SmPath(us[i].mod));
  }

  lemma PositionsFollow(s: seq<nat>, k: nat, l: nat)
    requires Increasing(s) && k < |s| && l < |s| && s[k] < s[l]
    ensures k < l
  {}

  lemma LaterUsers(us: seq<Update>, k: nat, file: string)
    requires k < |Wanted(us, |us|)|
    ensures var wanted := Wanted(us, |us|);
            (forall l :: k < l < |wanted| ==> FileOf(us)(wanted[l]) != file) <==>
            forall j :: wanted[k] < j < |us| && us[j].mod.url.Some? ==> SmPath(us[j].mod) != file
  {
    var wanted := Wanted(us, |us|);
    WantedAre(us, |us|);
    if forall l :: k < l < |wanted| ==> FileOf(us)(wanted[l]) != file {
      forall j | wanted[k] < j < |us| && us[j].mod.url.Some? ensures SmPath(us[j].mod) != file {
        assert j in wanted;
        var l :| 0 <= l < |wanted| && wanted[l] == j;
        PositionsFollow(wanted, k, l);
        assert FileOf(us)(wanted[l]) != file;
      }
    } else {
      var l :| k < l < |wanted| && FileOf(us)(wanted[l]) == file;
      assert wanted[l] in wanted && wanted[k] < wanted[l];
    }
  }

  /** Two updates, of different modules even, whose artefacts go to the same file. */
  lemma SharedFile(u: string, v: string)
    ensures SmPath(Module(None, "a_b", None, Some(u), None)) == SmPath(Module(None, "a", Some("b"), Some(v), None))
  {
    assert "a_b" + "" == "a" + ("_" + "b");
  }

  /** Even if all goes well, the first of them is installed from the artefact of the second. */
  lemma InstalledFromAnother(p: Plugin, env: Env, start: seq<Call>, us: seq<Update>)
    requires |us| == 2 && us[0].mod.url.Some? && us[1].mod.url.Some? && Ready(p, env, start, us)
    requires us[0].mod.name == "a_b" && us[0].mod.version == None
    requires us[1].mod.name == "a" && us[1].mod.version == Some("b")
    ensures var disk, handed := DiskOnceReady(p, env, start, us), WithFiles(us)[0].mod.filePath;
            handed.Some? && handed.value in disk && disk[handed.value] == 1
  {
    SharedFile(us[0].mod.url.value, us[1].mod.url.value);
    OwnFileIff(p, env, start, us, 0);
    OwnFileIff(p, env, start, us, 1);
    assert SmPath(us[1].mod) == SmPath(us[0].mod);
  }

  // ---------------------------------------------------------------- nothing is left behind

  predicate LeavesDisk(c: Call) {
    !c.Download? && !c.Cleanup?
  }

  lemma {:induction false} OthersLeaveDisk<F>(p: Plugin, env: Env, file: nat -> F, start: seq<Call>,
                                             calls: seq<Call>, others: seq<Call>)
    requires forall c <- others :: LeavesDisk(c)
    ensures DiskAfter(p, env, file, start, calls + others) == DiskAfter(p, env, file, start, calls)
    decreases |others|
  {
    if others == [] {
      assert calls + others == calls;
    } else {
      var n := |others| - 1;
      assert calls + others == calls + others[..n] + [others[n]];
      assert others[n] in others && forall c <- others[..n] :: c in others;
      OthersLeaveDisk(p, env, file, start, calls, others[..n]);
      DiskSnoc(p, env, file, start, calls + others[..n], others[n]);
    }
  }

  lemma {:induction false} CleanupsRemove<F>(p: Plugin, env: Env, file: nat -> F, start: seq<Call>,
                                            calls: seq<Call>, indices: seq<nat>, f: F)
    ensures f in DiskAfter(p, env, file, start, calls + Cleanups(indices)) <==>
            f in DiskAfter(p, env, file, start, calls) && !Uses(file, indices, f)
    decreases |indices|
  {
    if indices == [] {
      assert calls + Cleanups(indices) == calls;
    } else {
      var n := |indices| - 1;
      CleanupsRemove(p, env, file, start, calls, indices[..n], f);
      NextCleanup(p, env, file, start, calls, indices);
    }
  }

  lemma NextCleanup<F>(p: Plugin, env: Env, file: nat -> F, start: seq<Call>, calls: seq<Call>, indices: seq<nat>)
    requires indices != []
    ensures var n := |indices| - 1;
            DiskAfter(p, env, file, start, calls + Cleanups(indices))
            == DiskAfter(p, env, file, start, calls + Cleanups(indices[..n])) - {file(indices[n])}
  {
    var n := |indices| - 1;
    assert calls + Cleanups(indices) == calls + Cleanups(indices[..n]) + [Cleanup(indices[n])];
    DiskSnoc(p, env, file, start, calls + Cleanups(indices[..n]), Cleanup(indices[n]));
  }

  /** Whatever the calls end like, and even if files are shared, no artefact is left on disk. */
  lemma NothingLeftBehind(p: Plugin, env: Env, start: seq<Call>, us: seq<Update>)
    ensures DiskAfter(p, env, FileOf(us), start, Calls(p, env, start, us)) == map[]
  {
    if env(p, start, PrepareCall).Ok? {
      var attempted, work, downloaded :=
        Attempted(p, env, start, us), Work(p, env, start, us), Downloaded(p, env, start, us);
      WorkOnlyUpdates(p, env, start, us);
      DiskOnceAttempted(p, env, FileOf(us), start, us);
      AssembledCleansUp(p, env, FileOf(us), start, attempted, work, downloaded);
    } else {
      JustPrepared(p, env, FileOf(us), start);
    }
  }

  lemma AssembledCleansUp<F(!new)>(p: Plugin, env: Env, file: nat -> F, start: seq<Call>,
                                   attempted: seq<nat>, work: seq<Call>, downloaded: seq<nat>)
    requires forall c <- work :: IsUpdating(c)
    requires DiskAfter(p, env, file, start, [PrepareCall] + Downloads(attempted)) == Written(file, downloaded)
    ensures DiskAfter(p, env, file, start, Assemble(attempted, work, downloaded)) == map[]
  {
    var fetched := [PrepareCall] + Downloads(attempted);
    OthersLeaveDisk(p, env, file, start, fetched, work);
    OthersLeaveDisk(p, env, file, start, fetched + work, [FinalizeCall]);
    var disk := DiskAfter(p, env, file, start, Assemble(attempted, work, downloaded));
    forall f: F ensures f !in disk {
      CleanupsRemove(p, env, file, start, fetched + work + [FinalizeCall], downloaded, f);
      WrittenFiles(file, downloaded, f);
    }
    assert disk.Keys == {};
  }
}
