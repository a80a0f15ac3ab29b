/**
 The file system on top of the log: what a crash leaves of the files.

 A transaction is what operations that overlap write together; it ends when the last of them does.
 Its operations have to be serializable among themselves: the blocks that they log, taken together,
 change the files as some order of them does. FsOperations shows when that is so.
 */
module FsSurvival {
  import opened Wrappers
  import opened Blocks
  import opened LogDisk
  import opened LogProtocol
  import opened LogAtomicity
  import opened FsFiles
  import FsDisk

  /** The choice ends the last operation in progress, so a transaction is complete. */
  ghost predicate EndsTransaction(s: State, c: Choice) {
    c.EndOp? && s.phase.Running? && |s.active| == 1 && c.i == 0
  }

  /** The files that were committed become, by all the writes since, those that the jobs leave. */
  ghost predicate Transaction(sb: FsDisk.Super, d: Disk, s: State, c: Choice, jobs: seq<Job>) {
    if EndsTransaction(s, c) then
      InRange(d, s.stable) && InRange(d, s.stable + s.trail) ==>
        Does(sb, After(d, s.stable), After(d, s.stable + s.trail), jobs)
    else jobs == []
  }

  /** `jobs[k]` are the operations of the transaction that ends with choice `k`, if one does. */
  ghost predicate Driven(lay: Layout, sb: FsDisk.Super, d: Disk, schedule: seq<Choice>, jobs: seq<seq<Job>>) {
    && |jobs| == |schedule|
    && forall k :: 0 <= k < |schedule| ==>
         Transaction(sb, d, Execute(lay, d, schedule[..k]), schedule[k], jobs[k])
  }

  function Concat(jobs: seq<seq<Job>>): seq<Job> {
    if jobs == [] then [] else Concat(jobs[..|jobs| - 1]) + jobs[|jobs| - 1]
  }

  predicate NoCrash(schedule: seq<Choice>) {
    forall k :: 0 <= k < |schedule| ==> !schedule[k].Crash?
  }

  // ---------------------------------------------------------------------------
  // What crashes leave

  /** The place after the last crash. */
  function Restart(schedule: seq<Choice>): (c: nat)
    ensures c <= |schedule|
    ensures c > 0 ==> schedule[c - 1].Crash?
    ensures NoCrash(schedule[c..])
  {
    if schedule == [] || schedule[|schedule| - 1].Crash? then |schedule|
    else
      var init := schedule[..|schedule| - 1];
      assert schedule[Restart(init)..] == init[Restart(init)..] + [schedule[|schedule| - 1]];
      Restart(init)
  }

  /** To `base` are added the first transactions of the groups, each with all of its operations. */
  ghost predicate FirstOnes(groups: seq<seq<Job>>, base: seq<Job>, kept: seq<Job>) {
    exists k: nat :: k <= |groups| && kept == base + Concat(groups[..k])
  }

  lemma {:induction false} RestartOn(schedule: seq<Choice>, c: Choice)
    ensures Restart(schedule + [c]) == if c.Crash? then |schedule| + 1 else Restart(schedule)
  {
    assert (schedule + [c])[..|schedule|] == schedule;
  }

  lemma {:induction false} NoRestart(schedule: seq<Choice>)
    requires NoCrash(schedule)
    ensures Restart(schedule) == 0
  {
    if schedule != [] {
      NoRestart(schedule[..|schedule| - 1]);
    }
  }

  lemma ConcatOn(groups: seq<seq<Job>>, group: seq<Job>)
    ensures Concat(groups + [group]) == Concat(groups) + group
  {
    assert (groups + [group])[..|groups|] == groups;
  }

  lemma NoneOf(kept: seq<Job>)
    ensures FirstOnes([], kept, kept) && kept + [] == kept + Concat([])
  {
    var none: seq<seq<Job>> := [];
    assert kept == kept + Concat(none[..0]);
  }

  lemma MoreGroups(groups: seq<seq<Job>>, group: seq<Job>, base: seq<Job>, kept: seq<Job>, waiting: seq<Job>)
    requires FirstOnes(groups, base, kept) && kept + waiting == base + Concat(groups)
    ensures FirstOnes(groups + [group], base, kept) && FirstOnes(groups + [group], base, kept + waiting)
  {
    hide Concat;
    var k: nat :| k <= |groups| && kept == base + Concat(groups[..k]);
    assert (groups + [group])[..k] == groups[..k];
    assert (groups + [group])[..|groups|] == groups;
  }

  // ---------------------------------------------------------------------------
  // The files of every run

  /** The committed jobs, and those of a transaction that waits for its commit. */
  ghost predicate FilesInv(sb: FsDisk.Super, d: Disk, files: seq<seq<Byte>>, s: State, kept: seq<Job>,
                           waiting: seq<Job>)
    requires InRange(d, s.stable) && InRange(d, s.stable + s.trail)
  {
    && Holds(sb, After(d, s.stable), DoAll(files, kept))
    && (s.phase.Committing? ==> Holds(sb, After(d, s.stable + s.trail), DoAll(files, kept + waiting)))
    && (!s.phase.Committing? ==> waiting == [])
  }

  /** What one choice does to the committed and the waiting jobs. */
  lemma FilesStep(lay: Layout, sb: FsDisk.Super, d: Disk, files: seq<seq<Byte>>, s: State, c: Choice, s': State,
                  group: seq<Job>, kept: seq<Job>, waiting: seq<Job>)
    returns (kept': seq<Job>, waiting': seq<Job>)
    requires Inv(lay, d, s) && Step(lay, s, c) == Some(s') && Transaction(sb, d, s, c, group)
    requires InRange(d, s.stable) && InRange(d, s.stable + s.trail)
    requires InRange(d, s'.stable) && InRange(d, s'.stable + s'.trail)
    requires FilesInv(sb, d, files, s, kept, waiting)
    ensures FilesInv(sb, d, files, s', kept', waiting')
    ensures kept' == kept || (kept' == kept + waiting && !c.Crash?)
    ensures kept' + waiting' == if c.Crash? then kept else kept + waiting + group
  {
    hide DataInv, Unsplit, After, Holds, Does, Reserved, DoAll, InRange, MayPlan, Plan;
    kept', waiting' := kept, waiting;
    match c {
      case EndOp(i) =>
        if EndsTransaction(s, c) {
          waiting' := group;
          assert waiting == [];
          CommitStarts(sb, d, files, s, kept, group);
        }
      case DiskWrite =>
        assert group == [];
        if s.phase.Committing? && s.phase.k == |s.lh| {
          kept', waiting' := kept + waiting, [];
          assert s'.stable + s'.trail == s.stable + s.trail == s'.stable;
          assert kept' + waiting' == kept + waiting;
        }
      case Finish =>
        NothingWaits(lay, d, s);
        kept', waiting' := kept + waiting, [];
        assert s.stable + s.trail == s.stable;
        assert !s.phase.Committing? ==> kept + waiting == kept;
      case Crash =>
        waiting' := [];
      case _ =>
    }
  }

  lemma CommitStarts(sb: FsDisk.Super, d: Disk, files: seq<seq<Byte>>, s: State, kept: seq<Job>, group: seq<Job>)
    requires InRange(d, s.stable) && InRange(d, s.stable + s.trail) && Holds(sb, After(d, s.stable), DoAll(files, kept))
    requires Does(sb, After(d, s.stable), After(d, s.stable + s.trail), group)
    ensures Holds(sb, After(d, s.stable + s.trail), DoAll(files, kept + group))
  {
    DoBoth(files, kept, group);
  }

  /** The same where a choice that is not possible is skipped. */
  lemma FilesNext(lay: Layout, sb: FsDisk.Super, d: Disk, files: seq<seq<Byte>>, s: State, c: Choice, s': State,
                  group: seq<Job>, kept: seq<Job>, waiting: seq<Job>)
    returns (kept': seq<Job>, waiting': seq<Job>)
    requires Inv(lay, d, s) && Transaction(sb, d, s, c, group)
    requires s' == if Step(lay, s, c).Some? then Step(lay, s, c).value else s
    requires InRange(d, s.stable) && InRange(d, s.stable + s.trail)
    requires InRange(d, s'.stable) && InRange(d, s'.stable + s'.trail)
    requires FilesInv(sb, d, files, s, kept, waiting)
    ensures FilesInv(sb, d, files, s', kept', waiting')
    ensures kept' == kept || (kept' == kept + waiting && !c.Crash?)
    ensures kept' + waiting' == if c.Crash? then kept else kept + waiting + group
  {
    hide FilesInv, Step, Inv, EndsTransaction, InRange, After, Does;
    kept', waiting' := kept, waiting;
    if Step(lay, s, c).Some? {
      hide Transaction;
      kept', waiting' := FilesStep(lay, sb, d, files, s, c, s', group, kept, waiting);
    } else {
      if EndsTransaction(s, c) || c.Crash? {
        AlwaysPossible(lay, d, s, c);
      }
    }
  }

  /**
   At the end of a schedule: `kepts[t]` are the jobs committed after `t` choices, `waiting` those in
   commit now. All jobs since the last crash are there.
   */
  ghost predicate Moment(lay: Layout, sb: FsDisk.Super, d: Disk, files: seq<seq<Byte>>, schedule: seq<Choice>,
                         jobs: seq<seq<Job>>, kepts: seq<seq<Job>>, waiting: seq<Job>)
  {
    var s, c, n := Execute(lay, d, schedule), Restart(schedule), |schedule|;
    && InRange(d, s.stable) && InRange(d, s.stable + s.trail)
    && |jobs| == n && |kepts| == n + 1 && FilesInv(sb, d, files, s, kepts[n], waiting)
    && FirstOnes(jobs[c..], kepts[c], kepts[n])
    && kepts[n] + waiting == kepts[c] + Concat(jobs[c..])
  }

  /** What one choice does to the groups of jobs. */
  lemma GroupsNext(schedule: seq<Choice>, jobs: seq<seq<Job>>, kepts: seq<seq<Job>>, waiting: seq<Job>, c: Choice,
                   group: seq<Job>, kept': seq<Job>, waiting': seq<Job>)
    requires |jobs| == |schedule| && |kepts| == |schedule| + 1
    requires FirstOnes(jobs[Restart(schedule)..], kepts[Restart(schedule)], kepts[|schedule|])
    requires kepts[|schedule|] + waiting == kepts[Restart(schedule)] + Concat(jobs[Restart(schedule)..])
    requires var kept := kepts[|schedule|];
             && (kept' == kept || (kept' == kept + waiting && !c.Crash?))
             && kept' + waiting' == if c.Crash? then kept else kept + waiting + group
    ensures var r := Restart(schedule + [c]);
            && FirstOnes((jobs + [group])[r..], (kepts + [kept'])[r], kept')
            && kept' + waiting' == (kepts + [kept'])[r] + Concat((jobs + [group])[r..])
  {
    hide Restart, Concat, FirstOnes;
    RestartOn(schedule, c);
    var r := Restart(schedule);
    if c.Crash? {
      assert (jobs + [group])[|schedule| + 1..] == [] && waiting' == [];
      NoneOf(kept');
    } else {
      assert (jobs + [group])[r..] == jobs[r..] + [group];
      ConcatOn(jobs[r..], group);
      MoreGroups(jobs[r..], group, kepts[r], kepts[|schedule|], waiting);
    }
  }

  /** The jobs of every run: at each moment those committed and those in commit. */
  lemma {:induction false} FilesReachable(lay: Layout, sb: FsDisk.Super, d: Disk, files: seq<seq<Byte>>,
                                          schedule: seq<Choice>, jobs: seq<seq<Job>>)
    returns (kepts: seq<seq<Job>>, waitings: seq<seq<Job>>)
    requires Fresh(lay, d) && Holds(sb, d, files) && Driven(lay, sb, d, schedule, jobs)
    ensures |jobs| == |schedule| && |kepts| == |waitings| == |schedule| + 1 && kepts[0] == []
    ensures forall t :: 0 <= t <= |schedule| ==>
              Moment(lay, sb, d, files, schedule[..t], jobs[..t], kepts[..t + 1], waitings[t])
    ensures forall t :: 0 <= t < |schedule| ==> kepts[t] <= kepts[t + 1]
  {
    hide Holds, Driven, Moment, Fresh;
    if schedule == [] {
      kepts, waitings := [[]], [[]];
      NoMoment(lay, sb, d, files, jobs);
      assert schedule[..0] == [] && jobs[..0] == [] && kepts[..1] == [[]];
    } else {
      var n := |schedule| - 1;
      DrivenBefore(lay, sb, d, schedule, jobs);
      var ks, ws := FilesReachable(lay, sb, d, files, schedule[..n], jobs[..n]);
      assert schedule[..n][..n] == schedule[..n] && jobs[..n][..n] == jobs[..n] && ks[..n + 1] == ks;
      var kept, waiting := NextMoment(lay, sb, d, files, schedule, jobs, ks, ws[n]);
      kepts, waitings := ks + [kept], ws + [waiting];
      MomentsOn(lay, sb, d, files, schedule, jobs, ks, ws, kept, waiting);
    }
  }

  lemma MomentsOn(lay: Layout, sb: FsDisk.Super, d: Disk, files: seq<seq<Byte>>, schedule: seq<Choice>,
                  jobs: seq<seq<Job>>, ks: seq<seq<Job>>, ws: seq<seq<Job>>, kept: seq<Job>, waiting: seq<Job>)
    requires |jobs| == |schedule| == |ks| == |ws| > 0
    requires Moment(lay, sb, d, files, schedule, jobs, ks + [kept], waiting)
    requires var n := |schedule| - 1;
             forall t :: 0 <= t <= n ==>
               Moment(lay, sb, d, files, schedule[..n][..t], jobs[..n][..t], ks[..t + 1], ws[t])
    ensures forall t :: 0 <= t <= |schedule| ==>
              Moment(lay, sb, d, files, schedule[..t], jobs[..t], (ks + [kept])[..t + 1], (ws + [waiting])[t])
  {
    hide Moment;
    var n := |schedule| - 1;
    forall t | 0 <= t <= |schedule|
      ensures Moment(lay, sb, d, files, schedule[..t], jobs[..t], (ks + [kept])[..t + 1], (ws + [waiting])[t])
    {
      if t <= n {
        assert schedule[..n][..t] == schedule[..t] && jobs[..n][..t] == jobs[..t];
        assert ks[..t + 1] == (ks + [kept])[..t + 1];
      } else {
        assert schedule[..t] == schedule && jobs[..t] == jobs && (ks + [kept])[..t + 1] == ks + [kept];
      }
    }
  }

  lemma NextMoment(lay: Layout, sb: FsDisk.Super, d: Disk, files: seq<seq<Byte>>, schedule: seq<Choice>,
                   jobs: seq<seq<Job>>, kepts: seq<seq<Job>>, waiting: seq<Job>)
    returns (kept': seq<Job>, waiting': seq<Job>)
    requires Fresh(lay, d) && |jobs| == |schedule| > 0
    requires var n := |schedule| - 1;
             && Transaction(sb, d, Execute(lay, d, schedule[..n]), schedule[n], jobs[n])
             && Moment(lay, sb, d, files, schedule[..n], jobs[..n], kepts, waiting)
    ensures |kepts| == |schedule| && kepts[|schedule| - 1] <= kept'
    ensures Moment(lay, sb, d, files, schedule, jobs, kepts + [kept'], waiting')
  {
    hide Inv, Holds, FilesInv, Step, Transaction, InRange, FirstOnes, Restart, Concat;
    var n := |schedule| - 1;
    var s, s' := Execute(lay, d, schedule[..n]), Execute(lay, d, schedule);
    Reachable(lay, d, schedule[..n]);
    Reachable(lay, d, schedule);
    StaysInRange(lay, d, s');
    kept', waiting' := FilesNext(lay, sb, d, files, s, schedule[n], s', jobs[n], kepts[n], waiting);
    GroupsNext(schedule[..n], jobs[..n], kepts, waiting, schedule[n], jobs[n], kept', waiting');
    assert schedule[..n] + [schedule[n]] == schedule && jobs[..n] + [jobs[n]] == jobs;
  }

  lemma NoMoment(lay: Layout, sb: FsDisk.Super, d: Disk, files: seq<seq<Byte>>, jobs: seq<seq<Job>>)
    requires Holds(sb, d, files) && Driven(lay, sb, d, [], jobs)
    ensures jobs == [] && Moment(lay, sb, d, files, [], jobs, [[]], [])
  {
    BootFiles(sb, d, files);
    NoneOf([]);
  }

  /** `end_op` never has to wait, and nothing keeps the power from failing. */
  lemma AlwaysPossible(lay: Layout, d: Disk, s: State, c: Choice)
    requires Inv(lay, d, s) && (EndsTransaction(s, c) || c.Crash?)
    ensures Step(lay, s, c).Some?
  {
  }

  lemma BootFiles(sb: FsDisk.Super, d: Disk, files: seq<seq<Byte>>)
    requires Holds(sb, d, files)
    ensures FilesInv(sb, d, files, Boot(d), [], [])
  {
    assert Writes([]) == [];
  }

  lemma StaysInRange(lay: Layout, d: Disk, s: State)
    requires Inv(lay, d, s)
    ensures InRange(d, s.stable) && InRange(d, s.stable + s.trail)
  {
    if s.phase.Recovering? {
      assert s.stable + s.trail == s.stable;
    }
  }

  lemma DrivenBefore(lay: Layout, sb: FsDisk.Super, d: Disk, schedule: seq<Choice>, jobs: seq<seq<Job>>)
    requires Driven(lay, sb, d, schedule, jobs) && schedule != []
    ensures var n := |schedule| - 1;
            && |jobs| == n + 1 && Driven(lay, sb, d, schedule[..n], jobs[..n])
            && Transaction(sb, d, Execute(lay, d, schedule[..n]), schedule[n], jobs[n])
  {
    var n := |schedule| - 1;
    forall k | 0 <= k < n
      ensures Transaction(sb, d, Execute(lay, d, schedule[..n][..k]), schedule[..n][k], jobs[..n][k])
    {
      assert schedule[..n][..k] == schedule[..k];
      assert Transaction(sb, d, Execute(lay, d, schedule[..k]), schedule[k], jobs[k]);
    }
  }

  // ---------------------------------------------------------------------------
  // Crashes

  /** However often its recovery is cut off, the disk comes back with these files, in order. */
  ghost predicate RecoversTo(lay: Layout, sb: FsDisk.Super, disk: Disk, files: seq<seq<Byte>>) {
    && LogOk(lay, disk)
    && forall cuts: seq<nat> :: Holds(sb, Recovered(lay, Crashed(lay, disk, cuts)), files)
  }

  /**
   If the power fails after `t` choices: the files come back as the jobs `kepts[t]` leave them, which
   are those that the crash before had left with the first transactions since then, and with all of
   them if no commit is in progress.
   */
  ghost predicate SurvivesAt(lay: Layout, sb: FsDisk.Super, d: Disk, files: seq<seq<Byte>>, schedule: seq<Choice>,
                             jobs: seq<seq<Job>>, kepts: seq<seq<Job>>, t: nat)
    requires t <= |schedule| == |jobs| && |kepts| == |schedule| + 1
  {
    var s, c := Execute(lay, d, schedule[..t]), Restart(schedule[..t]);
    && RecoversTo(lay, sb, s.disk, DoAll(files, kepts[t]))
    && FirstOnes(jobs[c..t], kepts[c], kepts[t])
    && (!s.phase.Committing? ==> kepts[t] == kepts[c] + Concat(jobs[c..t]))
  }

  /**
   The main result. The power may fail at any moment of any run, also again and again, and any number
   of recoveries may be cut off. One sequence says for every moment what a crash leaves: a file system
   in order, whose files are those that the crash before had left with the first transactions since
   then done, each as a whole. What is once kept stays.
   */
  lemma FilesSurvive(lay: Layout, sb: FsDisk.Super, d: Disk, files: seq<seq<Byte>>, schedule: seq<Choice>,
                     jobs: seq<seq<Job>>)
    returns (kepts: seq<seq<Job>>)
    requires Fresh(lay, d) && Holds(sb, d, files) && Driven(lay, sb, d, schedule, jobs)
    requires lay.start + lay.size <= sb.inodestart
    ensures |jobs| == |schedule| && |kepts| == |schedule| + 1 && kepts[0] == []
    ensures forall t: nat :: t <= |schedule| ==> SurvivesAt(lay, sb, d, files, schedule, jobs, kepts, t)
    ensures forall t :: 0 <= t < |schedule| ==> kepts[t] <= kepts[t + 1]
  {
    hide Holds, Driven, Fresh, Moment, SurvivesAt;
    var waitings;
    kepts, waitings := FilesReachable(lay, sb, d, files, schedule, jobs);
    forall t: nat | t <= |schedule|
      ensures SurvivesAt(lay, sb, d, files, schedule, jobs, kepts, t)
    {
      MomentSurvives(lay, sb, d, files, schedule, jobs, kepts, waitings[t], t);
    }
  }

  lemma MomentSurvives(lay: Layout, sb: FsDisk.Super, d: Disk, files: seq<seq<Byte>>, schedule: seq<Choice>,
                       jobs: seq<seq<Job>>, kepts: seq<seq<Job>>, waiting: seq<Job>, t: nat)
    requires Fresh(lay, d) && lay.start + lay.size <= sb.inodestart
    requires t <= |schedule| == |jobs| && |kepts| == |schedule| + 1
    requires Moment(lay, sb, d, files, schedule[..t], jobs[..t], kepts[..t + 1], waiting)
    ensures SurvivesAt(lay, sb, d, files, schedule, jobs, kepts, t)
  {
    hide Holds, Fresh, FirstOnes, Restart, Concat, Recovered, Crashed;
    var s, c := Execute(lay, d, schedule[..t]), Restart(schedule[..t]);
    assert jobs[..t][c..] == jobs[c..t];
    assert !s.phase.Committing? ==> kepts[t] + waiting == kepts[t];
    OperationsAtomic(lay, d, schedule[..t], []);
    forall cuts: seq<nat>
      ensures Holds(sb, Recovered(lay, Crashed(lay, s.disk, cuts)), DoAll(files, kepts[t]))
    {
      OperationsAtomic(lay, d, schedule[..t], cuts);
      hide Execute;
      SameFiles(sb, After(d, s.stable), Recovered(lay, Crashed(lay, s.disk, cuts)), DoAll(files, kepts[t]));
    }
  }

  /**
   A call of filewrite that a crash cuts off has written a first part of its bytes: whole chunks, or
   all it got to. It found the files as the crash before had left them, and what happens to other
   files at the same time makes no difference.
   */
  lemma WriteSurvives(lay: Layout, sb: FsDisk.Super, d: Disk, files: seq<seq<Byte>>, schedule: seq<Choice>,
                      jobs: seq<seq<Job>>, i: nat, off: nat, src: seq<Byte>, n: nat)
    returns (before: seq<seq<Byte>>, after: seq<seq<Byte>>, k: nat)
    requires Fresh(lay, d) && Holds(sb, d, files) && Driven(lay, sb, d, schedule, jobs)
    requires lay.start + lay.size <= sb.inodestart
    requires |jobs| == |schedule| && ChunksFor(Concat(jobs[Restart(schedule)..]), i, off, src, n)
    ensures RecoversTo(lay, sb, Execute(lay, d, schedule[..Restart(schedule)]).disk, before)
    ensures RecoversTo(lay, sb, Execute(lay, d, schedule).disk, after)
    ensures k == n || (k < n && Execute(lay, d, schedule).phase.Committing?)
    ensures InFile(before, i, off) ==> WrittenSoFar(before, after, i, off, src, k)
  {
    hide Execute, Holds, Driven, Fresh, WrittenSoFar, ChunksFor, InFile, FirstOnes, Restart, Concat, DoAll, RecoversTo;
    var kepts := FilesSurvive(lay, sb, d, files, schedule, jobs);
    var t, c := |schedule|, Restart(schedule);
    assert SurvivesAt(lay, sb, d, files, schedule, jobs, kepts, c);
    assert SurvivesAt(lay, sb, d, files, schedule, jobs, kepts, t);
    assert schedule[..t] == schedule && jobs[c..t] == jobs[c..];
    before, after := DoAll(files, kepts[c]), DoAll(files, kepts[t]);
    var mine := FirstJobs(jobs[c..], kepts[c], kepts[t]);
    DoBoth(files, kepts[c], mine);
    k := SomeChunks(Concat(jobs[c..]), mine, i, off, src, n);
    if InFile(before, i, off) {
      ChunksDone(before, mine, i, off, src, k);
    }
  }

  lemma FirstJobs(groups: seq<seq<Job>>, base: seq<Job>, kept: seq<Job>) returns (mine: seq<Job>)
    requires FirstOnes(groups, base, kept)
    ensures kept == base + mine && mine <= Concat(groups)
  {
    var k: nat :| k <= |groups| && kept == base + Concat(groups[..k]);
    mine := Concat(groups[..k]);
    ConcatPrefix(groups, k);
  }

  lemma {:induction false} ConcatPrefix(groups: seq<seq<Job>>, k: nat)
    requires k <= |groups|
    ensures Concat(groups[..k]) <= Concat(groups)
  {
    if k < |groups| {
      ConcatPrefix(groups[..|groups| - 1], k);
      assert groups[..|groups| - 1][..k] == groups[..k];
    } else {
      assert groups[..k] == groups;
    }
  }
}
