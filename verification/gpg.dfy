/** Replacing the encrypted password file, one system call at a time (gpg_encrypt in gpg.c). */
module Gpg {

  type Name = string
  type Files<C> = map<Name, C>

  datatype Outcome = Done | Exit
  datatype Errno = Ok | NoEntry | Other

  /** What one call of gpg_encrypt works on. */
  datatype Job<C> = Job(passwordFile: Name, backup: bool, tmpPath: Name, cipher: C)
  {
    function Backup(): Name {
      passwordFile + ".bak"
    }

    function TmpEncrypted(): Name {
      tmpPath + ".gpg"
    }

    ghost predicate Valid() {
      TmpEncrypted() != passwordFile
    }

    lemma NamesDiffer()
      requires Valid()
      ensures Backup() != passwordFile && Backup() != TmpEncrypted()
    {
      assert |Backup()| != |passwordFile|;
      assert Backup()[|Backup()| - 1] == 'k' && TmpEncrypted()[|TmpEncrypted()| - 1] == 'g';
    }
  }

  function Without<C>(d: Files<C>, n: Name): Files<C> {
    map m | m in d && m != n :: d[m]
  }

  /**
   * The directory after gpg wrote its output and after each change gpg_encrypt makes to it,
   * in order; a call that changes nothing adds nothing.
   */
  function Stages<C>(d: Files<C>, job: Job<C>): seq<Files<C>> {
    var d0 := d[job.TmpEncrypted() := job.cipher];
    Saved(d0, job) + Installed(Cleared(d0, job), job)
  }

  /** Up to the removal of the old password file. */
  function Saved<C>(d0: Files<C>, job: Job<C>): (s: seq<Files<C>>)
    ensures |s| > 0 && s[0] == d0
  {
    if job.passwordFile !in d0 then [d0]
    else if !job.backup then [d0, Cleared(d0, job)]
    else
      var d1 := Without(d0, job.Backup());
      var d2 := d1[job.Backup() := d0[job.passwordFile]];
      [d0, d1, d2, Cleared(d0, job)]
  }

  /** The old password file is gone, its backup made if there has to be one. */
  function Cleared<C>(d0: Files<C>, job: Job<C>): Files<C> {
    if job.passwordFile !in d0 then d0
    else if !job.backup then Without(d0, job.passwordFile)
    else Without(d0[job.Backup() := d0[job.passwordFile]], job.passwordFile)
  }

  /** The new file under its name, then without the temporary one. */
  function Installed<C>(d3: Files<C>, job: Job<C>): seq<Files<C>> {
    var d4 := d3[job.passwordFile := job.cipher];
    [d4, Without(d4, job.TmpEncrypted())]
  }

  /** Where a completed run ends. */
  function Replaced<C>(d: Files<C>, job: Job<C>): Files<C> {
    var s := Stages(d, job);
    s[|s| - 1]
  }

  /** Every one of these stages was recorded since the trace had this length. */
  ghost predicate Visited<C>(trace: seq<Files<C>>, from: nat, stages: seq<Files<C>>)
    requires from <= |trace|
  {
    forall s :: s in stages ==> exists k :: from <= k < |trace| && trace[k] == s
  }

  /** The two stages of making the backup. */
  function Linking<C>(d: Files<C>, job: Job<C>): seq<Files<C>>
    requires job.passwordFile in d
  {
    [Without(d, job.Backup()), d[job.Backup() := d[job.passwordFile]]]
  }

  lemma SavedVisited<C>(trace: seq<Files<C>>, n: nat, m: nat, d: Files<C>, job: Job<C>)
    requires n < m < |trace| && job.passwordFile in d
    requires trace[n] == d && trace[m] == Cleared(d, job)
    requires job.backup ==> Visited(trace[..m], n + 1, Linking(d, job))
    ensures Visited(trace, n, Saved(d, job))
  {
    assert job.backup ==>
        Without(d, job.Backup())[job.Backup() := d[job.passwordFile]] == d[job.Backup() := d[job.passwordFile]];
    forall s | s in Saved(d, job) ensures exists k :: n <= k < |trace| && trace[k] == s {
      if s != d && s != Cleared(d, job) {
        assert s in Linking(d, job);
        var k :| n + 1 <= k < m && trace[..m][k] == s;
        assert trace[k] == s;
      }
    }
  }

  lemma VisitedMore<C>(before: seq<Files<C>>, trace: seq<Files<C>>, from: nat, s: seq<Files<C>>, t: seq<Files<C>>)
    requires from <= |before| && before <= trace
    requires Visited(before, from, s) && Visited(trace, |before|, t)
    ensures Visited(trace, from, s + t)
  {
    forall x | x in s + t ensures exists k :: from <= k < |trace| && trace[k] == x {
      if x in s {
        var k :| from <= k < |before| && before[k] == x;
        assert trace[k] == x;
      }
    }
  }

  class Directory<C> {
    var files: Files<C>
    /** The names whose files were given mode 0600 under that name. */
    var private: set<Name>
    var calls: nat
    /** The oracle of unexpected failures: the n-th system call may fail for any reason. */
    const fails: nat -> bool
    /** The directory after every call so far: where the process may also die. */
    ghost var trace: seq<Files<C>>

    constructor (files: Files<C>, fails: nat -> bool)
      ensures this.files == files && this.fails == fails && private == {} && calls == 0 && trace == []
    {
      this.files, this.fails, private, calls, trace := files, fails, {}, 0, [];
    }

    method Stat(n: Name) returns (e: Errno)
      modifies this
      ensures calls == old(calls) + 1 && files == old(files) && private == old(private) && trace == old(trace) + [files]
      ensures e == if fails(old(calls)) then Other else if n in files then Ok else NoEntry
    {
      e := if fails(calls) then Other else if n in files then Ok else NoEntry;
      calls, trace := calls + 1, trace + [files];
    }

    /** chmod to 0600. */
    method Chmod(n: Name) returns (e: Errno)
      modifies this
      ensures calls == old(calls) + 1 && files == old(files) && trace == old(trace) + [files]
      ensures e == if fails(old(calls)) then Other else if n in files then Ok else NoEntry
      ensures private == if e == Ok then old(private) + {n} else old(private)
    {
      e := if fails(calls) then Other else if n in files then Ok else NoEntry;
      if e == Ok {
        private := private + {n};
      }
      calls, trace := calls + 1, trace + [files];
    }

    method Unlink(n: Name) returns (e: Errno)
      modifies this
      ensures calls == old(calls) + 1 && trace == old(trace) + [files]
      ensures e == if fails(old(calls)) then Other else if n in old(files) then Ok else NoEntry
      ensures private == if e == Ok then old(private) - {n} else old(private)
      ensures files == if e == Ok then Without(old(files), n) else old(files)
    {
      e := if fails(calls) then Other else if n in files then Ok else NoEntry;
      if e == Ok {
        files, private := Without(files, n), private - {n};
      }
      calls, trace := calls + 1, trace + [files];
    }

    /** The new name refers to the same contents; an existing name is never replaced. */
    method Link(from: Name, to: Name) returns (e: Errno)
      modifies this
      ensures calls == old(calls) + 1 && trace == old(trace) + [files]
      ensures e == if fails(old(calls)) || to in old(files) then Other else if from in old(files) then Ok else NoEntry
      ensures private == if e == Ok && from in old(private) then old(private) + {to} else old(private)
      ensures files == if e == Ok then old(files)[to := old(files)[from]] else old(files)
    {
      e := if fails(calls) || to in files then Other else if from in files then Ok else NoEntry;
      if e == Ok {
        files := files[to := files[from]];
        private := if from in private then private + {to} else private;
      }
      calls, trace := calls + 1, trace + [files];
    }

    /** Everything recorded since the trace had this length is one of these stages. */
    ghost predicate Within(from: nat, stages: seq<Files<C>>)
      reads this
    {
      from <= |trace| && files in stages && forall k :: from <= k < |trace| ==> trace[k] in stages
    }

    /** Unlink the previous backup and link the password file to its name. */
    method LinkBackup(job: Job<C>) returns (ok: bool)
      requires job.Valid() && job.backup && job.passwordFile in files
      modifies this
      ensures old(trace) <= trace && Within(|old(trace)|, Saved(old(files), job))
      ensures old(calls) <= calls
      ensures ok ==> Visited(trace, |old(trace)|, Linking(old(files), job))
      ensures ok ==> files == old(files)[job.Backup() := old(files)[job.passwordFile]]
      ensures ok <==> forall n :: old(calls) <= n < calls ==> !fails(n)
      ensures forall n :: old(calls) <= n < calls - 1 ==> !fails(n)
    {
      job.NamesDiffer();
      ghost var d := files;
      var e := Unlink(job.Backup());
      assert files == d || files == Without(d, job.Backup());
      assert e != Other ==> files == Without(d, job.Backup());
      if e == Other {
        return false;
      }
      e := Link(job.passwordFile, job.Backup());
      assert e == Ok ==> files == d[job.Backup() := d[job.passwordFile]];
      assert trace[|old(trace)|] == Without(d, job.Backup());
      assert trace[|old(trace)| + 1] == files;
      return e == Ok;
    }

    /** The block for an existing password file: back it up, then unlink it. */
    method SaveOld(job: Job<C>) returns (ok: bool)
      requires job.Valid()
      modifies this
      ensures old(trace) <= trace && Within(|old(trace)|, Saved(old(files), job))
      ensures old(calls) <= calls
      ensures ok ==> Visited(trace, |old(trace)|, Saved(old(files), job))
      ensures ok ==> files == Cleared(old(files), job)
      ensures ok <==> forall n :: old(calls) <= n < calls ==> !fails(n)
      ensures forall n :: old(calls) <= n < calls - 1 ==> !fails(n)
    {
      job.NamesDiffer();
      ghost var n, d := |trace|, files;
      var e := Stat(job.passwordFile);
      assert trace[n] == d;
      if e == Other {
        return false;
      }
      if e == Ok {
        if job.backup {
          ok := LinkBackup(job);
          if !ok {
            return;
          }
        }
        ghost var m := |trace|;
        e := Unlink(job.passwordFile);
        if e == Ok {
          SavedVisited(trace, n, m, d, job);
        }
        return e == Ok;
      }
      return true;
    }

    /** Link the new file to its name and drop the temporary name. */
    method Install(job: Job<C>) returns (ok: bool)
      requires job.Valid() && job.passwordFile !in files
      requires job.TmpEncrypted() in files && files[job.TmpEncrypted()] == job.cipher
      modifies this
      ensures old(trace) <= trace && Within(|old(trace)|, [old(files)] + Installed(old(files), job))
      ensures old(calls) <= calls
      ensures ok ==> Visited(trace, |old(trace)|, Installed(old(files), job))
      ensures ok ==> files == Installed(old(files), job)[1]
      ensures job.TmpEncrypted() !in files || ok ==> job.passwordFile in private
      ensures ok <==> forall n :: old(calls) <= n < calls ==> !fails(n)
      ensures forall n :: old(calls) <= n < calls - 1 ==> !fails(n)
    {
      ghost var n, stages := |trace|, Installed(files, job);
      var e := Link(job.TmpEncrypted(), job.passwordFile);
      if e != Ok {
        return false;
      }
      assert trace[n] == files == stages[0];
      e := Chmod(job.passwordFile);
      if e != Ok {
        return false;
      }
      e := Unlink(job.TmpEncrypted());
      assert trace[n] == stages[0] && trace[n + 2] == files;
      assert e == Ok ==> files == stages[1];
      assert |stages| == 2;
      return e == Ok;
    }

    /** gpg_encrypt, from the point where gpg has written the temporary ciphertext. */
    method GpgEncrypt(job: Job<C>) returns (outcome: Outcome)
      requires job.Valid()
      requires job.TmpEncrypted() in files && files[job.TmpEncrypted()] == job.cipher
      modifies this
      ensures old(trace) <= trace && Within(|old(trace)|, Stages(old(files), job))
      ensures outcome == Done ==> Visited(trace, |old(trace)|, Stages(old(files), job))
      ensures outcome == Done ==> files == Replaced(old(files), job)
      ensures outcome == Done <==> forall n :: old(calls) <= n < calls ==> !fails(n)
      ensures forall n :: old(calls) <= n < calls - 1 ==> !fails(n)
      ensures job.TmpEncrypted() !in files || outcome == Done ==> job.passwordFile in private
    {
      job.NamesDiffer();
      ghost var d := files;
      assert d == d[job.TmpEncrypted() := job.cipher];
      var ok := SaveOld(job);
      if !ok {
        SavedSafe(d, job, files);
        return Exit;
      }
      ghost var saved := trace;
      ok := Install(job);
      if ok {
        VisitedMore(saved, trace, |old(trace)|, Saved(d, job), Installed(Cleared(d, job), job));
      }
      return if ok then Done else Exit;
    }
  }

  // ---- what every prefix of a run keeps ----

  ghost predicate At<C>(d: Files<C>, n: Name, c: C) {
    n in d && d[n] == c
  }

  ghost predicate SameAt<C>(d: Files<C>, e: Files<C>, n: Name) {
    (n in d <==> n in e) && (n in d ==> d[n] == e[n])
  }

  /** The new ciphertext has a name at all times, and with a backup so has the old one. */
  ghost predicate Safe<C>(d: Files<C>, job: Job<C>, s: Files<C>) {
    && (At(s, job.TmpEncrypted(), job.cipher) || At(s, job.passwordFile, job.cipher))
    && (job.backup && job.passwordFile in d ==>
          At(s, job.passwordFile, d[job.passwordFile]) || At(s, job.Backup(), d[job.passwordFile]))
    && (!job.backup || job.passwordFile !in d ==> SameAt(d, s, job.Backup()))
    && forall n :: n !in {job.passwordFile, job.Backup(), job.TmpEncrypted()} ==> SameAt(d, s, n)
  }

  lemma EveryStageSafe<C>(d: Files<C>, job: Job<C>, s: Files<C>)
    requires job.Valid() && s in Stages(d, job)
    ensures Safe(d, job, s)
  {
    hide Saved, Cleared, Installed, Safe;
    var d0 := d[job.TmpEncrypted() := job.cipher];
    if s in Saved(d0, job) {
      SavedSafe(d0, job, s);
    } else {
      InstalledSafe(d0, job, s);
    }
    SafeBefore(d, job, s);
  }

  /** What gpg has written does not matter for what is to be kept. */
  lemma SafeBefore<C>(d: Files<C>, job: Job<C>, s: Files<C>)
    requires job.Valid() && Safe(d[job.TmpEncrypted() := job.cipher], job, s)
    ensures Safe(d, job, s)
  {
    job.NamesDiffer();
    var d0 := d[job.TmpEncrypted() := job.cipher];
    forall n | n !in {job.passwordFile, job.Backup(), job.TmpEncrypted()} ensures SameAt(d, s, n) {
      assert SameAt(d0, s, n);
    }
  }

  lemma InstalledSafe<C>(d0: Files<C>, job: Job<C>, s: Files<C>)
    requires job.Valid() && s in Installed(Cleared(d0, job), job)
    ensures Safe(d0, job, s)
  {
    job.NamesDiffer();
    var d4 := Cleared(d0, job)[job.passwordFile := job.cipher];
    assert s == d4 || s == Without(d4, job.TmpEncrypted());
  }

  lemma SavedSafe<C>(d0: Files<C>, job: Job<C>, s: Files<C>)
    requires job.Valid() && s in Saved(d0, job) && At(d0, job.TmpEncrypted(), job.cipher)
    ensures Safe(d0, job, s) && At(s, job.TmpEncrypted(), job.cipher)
  {
    job.NamesDiffer();
  }

  /** A completed run: the new file in place, the old one in the backup, nothing temporary, nothing else touched. */
  lemma ReplacedIs<C>(d: Files<C>, job: Job<C>)
    requires job.Valid()
    ensures var e := Replaced(d, job);
            && At(e, job.passwordFile, job.cipher)
            && job.tmpPath + ".gpg" !in e
            && (if job.backup && job.passwordFile in d then At(e, job.passwordFile + ".bak", d[job.passwordFile])
                else SameAt(d, e, job.passwordFile + ".bak"))
            && forall n :: n !in {job.passwordFile, job.passwordFile + ".bak", job.tmpPath + ".gpg"} ==> SameAt(d, e, n)
  {
    job.NamesDiffer();
    var d0 := d[job.TmpEncrypted() := job.cipher];
    var d4 := Cleared(d0, job)[job.passwordFile := job.cipher];
    assert Replaced(d, job) == Without(d4, job.TmpEncrypted());
  }

  // ---- many runs ----

  /** Runs on one password file, with or without backups; the temporary names may differ. */
  ghost predicate OneFile<C>(jobs: seq<Job<C>>, pw: Name) {
    forall j :: j in jobs ==> j.Valid() && j.passwordFile == pw
  }

  function AfterRuns<C>(d: Files<C>, jobs: seq<Job<C>>): Files<C> {
    if jobs == [] then d else Replaced(AfterRuns(d, jobs[..|jobs| - 1]), jobs[|jobs| - 1])
  }

  lemma TwoRuns<C>(d: Files<C>, a: Job<C>, b: Job<C>)
    requires a.Valid() && b.Valid() && b.backup && a.passwordFile == b.passwordFile
    ensures At(Replaced(Replaced(d, a), b), b.passwordFile, b.cipher)
    ensures At(Replaced(Replaced(d, a), b), b.Backup(), a.cipher)
  {
    ReplacedIs(d, a);
    ReplacedIs(Replaced(d, a), b);
  }

  lemma AfterOneMore<C>(d: Files<C>, jobs: seq<Job<C>>, last: Job<C>)
    ensures AfterRuns(d, jobs + [last]) == Replaced(AfterRuns(d, jobs), last)
  {
    assert (jobs + [last])[..|jobs|] == jobs;
  }

  /** After two or more completed runs, the last with a backup, the pair is the last version and the one before. */
  lemma LastTwoVersions<C>(d: Files<C>, jobs: seq<Job<C>>, a: Job<C>, b: Job<C>, pw: Name)
    requires OneFile(jobs + [a] + [b], pw) && b.backup
    ensures At(AfterRuns(d, jobs + [a] + [b]), pw, b.cipher)
    ensures At(AfterRuns(d, jobs + [a] + [b]), pw + ".bak", a.cipher)
  {
    assert a in jobs + [a] + [b] && b in jobs + [a] + [b];
    AfterOneMore(d, jobs, a);
    AfterOneMore(d, jobs + [a], b);
    TwoRuns(AfterRuns(d, jobs), a, b);
  }

  /** A run and the stage at which it ended, by death, by error or by completing. */
  datatype Attempt<C> = Attempt(job: Job<C>, stage: nat)

  ghost predicate Feasible<C>(d: Files<C>, a: Attempt<C>) {
    a.stage < |Stages(d, a.job)|
  }

  /** The run got as far as linking the new file to its name. */
  predicate Commits<C>(d: Files<C>, a: Attempt<C>) {
    a.stage >= |Saved(d[a.job.TmpEncrypted() := a.job.cipher], a.job)|
  }

  ghost predicate History<C>(d: Files<C>, attempts: seq<Attempt<C>>, pw: Name)
    decreases |attempts|
  {
    attempts == [] ||
    (&& Feasible(d, attempts[0])
     && attempts[0].job.Valid() && attempts[0].job.passwordFile == pw
     && History(Stages(d, attempts[0].job)[attempts[0].stage], attempts[1..], pw))
  }

  ghost function End<C>(d: Files<C>, attempts: seq<Attempt<C>>, pw: Name): Files<C>
    requires History(d, attempts, pw)
    decreases |attempts|
  {
    if attempts == [] then d else End(Stages(d, attempts[0].job)[attempts[0].stage], attempts[1..], pw)
  }

  /** The version linked last, v to begin with. */
  ghost function LastCommitted<C>(d: Files<C>, attempts: seq<Attempt<C>>, pw: Name, v: C): C
    requires History(d, attempts, pw)
    decreases |attempts|
  {
    if attempts == [] then v
    else LastCommitted(Stages(d, attempts[0].job)[attempts[0].stage], attempts[1..], pw,
                       if Commits(d, attempts[0]) then attempts[0].job.cipher else v)
  }

  /** The version is the password file; or there is none and it is the backup. */
  ghost predicate Current<C>(d: Files<C>, pw: Name, v: C) {
    At(d, pw, v) || (pw !in d && At(d, pw + ".bak", v))
  }

  /** What a caller can tell: nothing to lose, a backup, nothing done yet, or the new file already in place. */
  ghost predicate Keeps<C>(d: Files<C>, a: Attempt<C>, v: C) {
    a.job.backup || a.job.passwordFile !in d || a.stage == 0 || Commits(d, a) || At(d, a.job.Backup(), v)
  }

  /** A run that ends at this stage leaves the current version, or its own once linked, exactly under that condition. */
  lemma StageKeepsCurrent<C>(d: Files<C>, a: Attempt<C>, v: C)
    requires a.job.Valid() && Feasible(d, a) && Current(d, a.job.passwordFile, v)
    ensures Current(Stages(d, a.job)[a.stage], a.job.passwordFile, if Commits(d, a) then a.job.cipher else v)
            <==> Keeps(d, a, v)
  {
    var job := a.job;
    job.NamesDiffer();
    var d0 := d[job.TmpEncrypted() := job.cipher];
    var saved := Saved(d0, job);
    if a.stage < |saved| {
      assert Stages(d, job)[a.stage] == saved[a.stage];
    } else {
      assert Stages(d, job)[a.stage] == Installed(Cleared(d0, job), job)[a.stage - |saved|];
    }
  }

  /** Between the runs, the version installed last is always current. */
  ghost predicate AlwaysCurrent<C>(d: Files<C>, attempts: seq<Attempt<C>>, pw: Name, v: C)
    requires History(d, attempts, pw)
    decreases |attempts|
  {
    && Current(d, pw, v)
    && (attempts != [] ==>
          AlwaysCurrent(Stages(d, attempts[0].job)[attempts[0].stage], attempts[1..], pw,
                        if Commits(d, attempts[0]) then attempts[0].job.cipher else v))
  }

  /** Every run of the history keeps what is current when it starts. */
  ghost predicate AllKeep<C>(d: Files<C>, attempts: seq<Attempt<C>>, pw: Name, v: C)
    requires History(d, attempts, pw)
    decreases |attempts|
  {
    attempts != [] ==>
      && Keeps(d, attempts[0], v)
      && AllKeep(Stages(d, attempts[0].job)[attempts[0].stage], attempts[1..], pw,
                 if Commits(d, attempts[0]) then attempts[0].job.cipher else v)
  }

  /**
   * However many runs are cut short wherever, the version installed last is never lost, exactly if
   * every run keeps what it finds.
   */
  lemma {:induction false} NeverLost<C>(d: Files<C>, attempts: seq<Attempt<C>>, pw: Name, v: C)
    requires History(d, attempts, pw) && Current(d, pw, v)
    ensures AlwaysCurrent(d, attempts, pw, v) <==> AllKeep(d, attempts, pw, v)
    ensures AllKeep(d, attempts, pw, v) ==> Current(End(d, attempts, pw), pw, LastCommitted(d, attempts, pw, v))
    decreases |attempts|
  {
    hide Keeps, Commits, Current, Stages;
    if attempts != [] {
      var a := attempts[0];
      StageKeepsCurrent(d, a, v);
      if Keeps(d, a, v) {
        NeverLost(Stages(d, a.job)[a.stage], attempts[1..], pw, if Commits(d, a) then a.job.cipher else v);
      } else {
        NotCurrent(Stages(d, a.job)[a.stage], attempts[1..], pw, if Commits(d, a) then a.job.cipher else v);
      }
    }
  }

  lemma NotCurrent<C>(d: Files<C>, attempts: seq<Attempt<C>>, pw: Name, v: C)
    requires History(d, attempts, pw) && !Current(d, pw, v)
    ensures !AlwaysCurrent(d, attempts, pw, v)
  {
  }

  /** In particular when backups are on throughout. */
  lemma {:induction false} BackupsKeep<C>(d: Files<C>, attempts: seq<Attempt<C>>, pw: Name, v: C)
    requires History(d, attempts, pw) && forall a :: a in attempts ==> a.job.backup
    ensures AllKeep(d, attempts, pw, v)
    decreases |attempts|
  {
    hide Commits, Stages;
    if attempts != [] {
      var a := attempts[0];
      BackupsKeep(Stages(d, a.job)[a.stage], attempts[1..], pw, if Commits(d, a) then a.job.cipher else v);
    }
  }

  /**
   * The old version has one of the two names in every stage exactly if there is a backup, or the
   * backup is a copy of it already.
   */
  lemma WindowIff<C>(d: Files<C>, job: Job<C>)
    requires job.Valid() && job.passwordFile in d
    ensures (forall s :: s in Stages(d, job) ==> OldReachable(d, job, s))
            <==> job.backup || At(d, job.Backup(), d[job.passwordFile])
  {
    job.NamesDiffer();
    if job.backup || At(d, job.Backup(), d[job.passwordFile]) {
      forall s | s in Stages(d, job) ensures OldReachable(d, job, s) {
        EveryStageSafe(d, job, s);
      }
    } else {
      var s := Stages(d, job)[1];
      assert s in Stages(d, job) && job.passwordFile !in s;
      assert SameAt(d, s, job.Backup());
    }
  }

  ghost predicate OldReachable<C>(d: Files<C>, job: Job<C>, s: Files<C>)
    requires job.passwordFile in d
  {
    At(s, job.passwordFile, d[job.passwordFile]) || At(s, job.Backup(), d[job.passwordFile])
  }

  /** A completed run of the machine really has such a moment, if it is to be had. */
  lemma WindowHappens<C>(d: Files<C>, job: Job<C>, trace: seq<Files<C>>, from: nat)
    requires job.Valid() && job.passwordFile in d && from <= |trace| && Visited(trace, from, Stages(d, job))
    requires !job.backup && !At(d, job.Backup(), d[job.passwordFile])
    ensures exists k :: from <= k < |trace| && !OldReachable(d, job, trace[k])
  {
    WindowIff(d, job);
    var s :| s in Stages(d, job) && !OldReachable(d, job, s);
    var k :| from <= k < |trace| && trace[k] == s;
  }
}
