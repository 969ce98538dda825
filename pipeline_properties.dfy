/** What the stage order and the naming conventions of the driver guarantee. */
module PipelineProperties {
  import opened Wrappers
  import opened SampleName
  import opened Pipeline
  import Paths
  import IndexCache

  // ----- The written-paths bookkeeping -----

  lemma {:induction false} WrittenSpec(log: seq<Stage>)
    ensures forall p :: p in Written(log) <==> exists j :: 0 <= j < |log| && p in log[j].outputs
    decreases |log|
  {
    if log != [] {
      var n := |log|;
      var pre := log[..n - 1];
      WrittenSpec(pre);
      forall p
        ensures p in Written(log) <==> exists j :: 0 <= j < n && p in log[j].outputs
      {
        if p in Written(pre) {
          var j :| 0 <= j < n - 1 && p in pre[j].outputs;
          assert pre[j] == log[j];
        }
        if exists j :: 0 <= j < n && p in log[j].outputs {
          var j :| 0 <= j < n && p in log[j].outputs;
          if j < n - 1 {
            assert pre[j] == log[j];
          }
        }
      }
    }
  }

  lemma WrittenAppend(log: seq<Stage>, st: Stage)
    ensures Written(log + [st]) == Written(log) + Elements(st.outputs)
  {
    assert (log + [st])[..|log|] == log;
  }

  /** What running one stage does to the outcome and to the paths on disk. */
  lemma RunStageFacts(initial: set<string>, o: Outcome, st: Stage, ok: Stage -> bool)
    ensures var o' := RunStage(o, st, ok);
      (o.failure.Some? ==> o' == o) &&
      (o'.failure.None? ==> o.failure.None?) &&
      Present(initial, o.log) <= Present(initial, o'.log) &&
      (o.failure.None? ==>
        o'.log == o.log + [st] &&
        Present(initial, o'.log) == Present(initial, o.log) + Elements(st.outputs))
  {
    WrittenAppend(o.log, st);
  }

  // ----- Every stage reads what is there -----

  ghost predicate ReadsPresent(st: Stage, present: set<string>)
  {
    forall p :: p in st.inputs ==> p in present
  }

  /** Each logged stage found every input it reads on disk when it ran. */
  ghost predicate Supplied(initial: set<string>, log: seq<Stage>)
  {
    forall i :: 0 <= i < |log| ==> ReadsPresent(log[i], Present(initial, log[..i]))
  }

  /** The only stale cache the chain cannot survive: a mature FASTA without its index. */
  ghost predicate CacheConsistent(base: string, present: set<string>)
  {
    base + Paths.MatureFasta in present ==> base + Paths.MatureIndex in present
  }

  /** Each reference is available, filtered or as its source. */
  ghost predicate SourcesAvailable(base: string, initial: set<string>)
  {
    (base + Paths.HairpinFasta in initial || base + Paths.HairpinSource in initial) &&
    (base + Paths.MatureFasta in initial || base + Paths.MatureSource in initial)
  }

  ghost predicate ChainInv(base: string, initial: set<string>, o: Outcome)
  {
    Supplied(initial, o.log) && (o.failure.None? ==> CacheConsistent(base, Present(initial, o.log)))
  }

  lemma SuppliedAppend(initial: set<string>, log: seq<Stage>, st: Stage)
    requires Supplied(initial, log) && ReadsPresent(st, Present(initial, log))
    ensures Supplied(initial, log + [st])
  {
    var log' := log + [st];
    assert log'[..|log|] == log;
    forall i | 0 <= i < |log'|
      ensures ReadsPresent(log'[i], Present(initial, log'[..i]))
    {
      if i < |log| {
        assert log'[..i] == log[..i];
      }
    }
  }

  /** A stage that finds its inputs and does not write the mature FASTA keeps the chain. */
  lemma StageStep(base: string, initial: set<string>, o: Outcome, st: Stage, ok: Stage -> bool)
    requires ChainInv(base, initial, o)
    requires o.failure.None? ==> ReadsPresent(st, Present(initial, o.log))
    requires base + Paths.MatureFasta !in st.outputs
    ensures ChainInv(base, initial, RunStage(o, st, ok))
  {
    RunStageFacts(initial, o, st, ok);
    if o.failure.None? {
      SuppliedAppend(initial, o.log, st);
    }
  }

  /** No stage but the mature filter writes the mature FASTA. */
  lemma OutputsAvoidMatureFasta(base: string, ctx: Context)
    ensures base + Paths.MatureFasta !in CutadaptorStage(base, ctx).outputs
    ensures base + Paths.MatureFasta !in FilterStage(base, Paths.HairpinSource, Paths.HairpinFasta).outputs
    ensures base + Paths.MatureFasta !in BuildIndexStage(base, Paths.HairpinFasta, Paths.HairpinIndex).outputs
    ensures base + Paths.MatureFasta !in BuildIndexStage(base, Paths.MatureFasta, Paths.MatureIndex).outputs
    ensures base + Paths.MatureFasta !in AlignStage(base, ctx).outputs
    ensures base + Paths.MatureFasta !in FlagstatStage(base, ctx).outputs
    ensures base + Paths.MatureFasta !in ViewStage(base, ctx).outputs
    ensures base + Paths.MatureFasta !in SortStage(base, ctx).outputs
    ensures base + Paths.MatureFasta !in IndexStage(base, ctx).outputs
    ensures base + Paths.MatureFasta !in CountStage(base, ctx).outputs
  {
    var f, s := ctx.fastqFile, ctx.sampleName;
    assert Paths.TrimmedName(f)[0] == 't' && Paths.SamName(s)[0] == 'a' && Paths.BamName(s)[0] == 'a';
    assert Paths.MatureFasta[0] == 'h';
    Paths.UnderBaseInjective(base, Paths.TrimmedName(f), Paths.MatureFasta);
    Paths.UnderBaseInjective(base, Paths.HairpinFasta, Paths.MatureFasta);
    Paths.UnderBaseInjective(base, Paths.HairpinIndex, Paths.MatureFasta);
    Paths.UnderBaseInjective(base, Paths.MatureIndex, Paths.MatureFasta);
    Paths.UnderBaseInjective(base, Paths.SamName(s), Paths.MatureFasta);
    Paths.UnderBaseInjective(base, Paths.BamName(s), Paths.MatureFasta);
    assert Paths.SortedBamName(s)[0] == 's';
    Paths.UnderBaseInjective(base, Paths.SortedBamName(s), Paths.MatureFasta);
    Paths.RelativeOutputsAreNotReference(base, s);
  }

  lemma HairpinBuildChain(base: string, initial: set<string>, o: Outcome, ok: Stage -> bool)
    requires ChainInv(base, initial, o)
    requires base + Paths.HairpinFasta in initial || base + Paths.HairpinSource in initial
    ensures var o' := ReferenceBuild(base, initial, o, Paths.HairpinSource, Paths.HairpinFasta, Paths.HairpinIndex, ok);
      ChainInv(base, initial, o') && Present(initial, o.log) <= Present(initial, o'.log) &&
      (o'.failure.None? ==> o.failure.None?)
  {
    if base + Paths.HairpinFasta !in Present(initial, o.log) {
      var filter := FilterStage(base, Paths.HairpinSource, Paths.HairpinFasta);
      var build := BuildIndexStage(base, Paths.HairpinFasta, Paths.HairpinIndex);
      OutputsAvoidMatureFasta(base, Context("", "", ""));
      StageStep(base, initial, o, filter, ok);
      RunStageFacts(initial, o, filter, ok);
      var o1 := RunStage(o, filter, ok);
      StageStep(base, initial, o1, build, ok);
      RunStageFacts(initial, o1, build, ok);
    }
  }

  lemma MatureBuildChain(base: string, initial: set<string>, o: Outcome, ok: Stage -> bool)
    requires ChainInv(base, initial, o)
    requires base + Paths.MatureFasta in initial || base + Paths.MatureSource in initial
    ensures var o' := ReferenceBuild(base, initial, o, Paths.MatureSource, Paths.MatureFasta, Paths.MatureIndex, ok);
      ChainInv(base, initial, o') && Present(initial, o.log) <= Present(initial, o'.log) &&
      (o'.failure.None? ==> o.failure.None? && base + Paths.MatureIndex in Present(initial, o'.log))
  {
    if base + Paths.MatureFasta !in Present(initial, o.log) {
      var filter := FilterStage(base, Paths.MatureSource, Paths.MatureFasta);
      var build := BuildIndexStage(base, Paths.MatureFasta, Paths.MatureIndex);
      RunStageFacts(initial, o, filter, ok);
      var o1 := RunStage(o, filter, ok);
      if o.failure.None? {
        SuppliedAppend(initial, o.log, filter);
      }
      RunStageFacts(initial, o1, build, ok);
      if o1.failure.None? {
        SuppliedAppend(initial, o1.log, build);
      }
    }
  }

  /** One iteration of the main loop keeps every stage's inputs supplied. */
  lemma SampleChain(base: string, initial: set<string>, o: Outcome, ctx: Context, ok: Stage -> bool)
    requires ChainInv(base, initial, o)
    requires base + ctx.fastqFile in initial
    requires ctx.trimmedFastqFile == Paths.TrimmedName(ctx.fastqFile)
    requires SourcesAvailable(base, initial)
    ensures ChainInv(base, initial, RunSample(base, initial, o, ctx, ok))
  {
    OutputsAvoidMatureFasta(base, ctx);
    var s := ctx.sampleName;
    var o1 := RunStage(o, CutadaptorStage(base, ctx), ok);
    StageStep(base, initial, o, CutadaptorStage(base, ctx), ok);
    RunStageFacts(initial, o, CutadaptorStage(base, ctx), ok);
    var oh := ReferenceBuild(base, initial, o1, Paths.HairpinSource, Paths.HairpinFasta, Paths.HairpinIndex, ok);
    HairpinBuildChain(base, initial, o1, ok);
    var o2 := ReferenceBuild(base, initial, oh, Paths.MatureSource, Paths.MatureFasta, Paths.MatureIndex, ok);
    MatureBuildChain(base, initial, oh, ok);
    assert o2 == ReferenceStages(base, initial, o1, ok);
    var o3 := RunStage(o2, AlignStage(base, ctx), ok);
    StageStep(base, initial, o2, AlignStage(base, ctx), ok);
    RunStageFacts(initial, o2, AlignStage(base, ctx), ok);
    var o4 := RunStage(o3, FlagstatStage(base, ctx), ok);
    StageStep(base, initial, o3, FlagstatStage(base, ctx), ok);
    RunStageFacts(initial, o3, FlagstatStage(base, ctx), ok);
    var o5 := RunStage(o4, ViewStage(base, ctx), ok);
    StageStep(base, initial, o4, ViewStage(base, ctx), ok);
    RunStageFacts(initial, o4, ViewStage(base, ctx), ok);
    var o6 := RunStage(o5, SortStage(base, ctx), ok);
    StageStep(base, initial, o5, SortStage(base, ctx), ok);
    RunStageFacts(initial, o5, SortStage(base, ctx), ok);
    var o7 := RunStage(o6, IndexStage(base, ctx), ok);
    StageStep(base, initial, o6, IndexStage(base, ctx), ok);
    RunStageFacts(initial, o6, IndexStage(base, ctx), ok);
    StageStep(base, initial, o7, CountStage(base, ctx), ok);
  }

  lemma {:induction false} RunFilesChain(base: string, initial: set<string>, files: seq<string>, ok: Stage -> bool)
    requires forall f :: f in files ==> base + f in initial
    requires SourcesAvailable(base, initial) && CacheConsistent(base, initial)
    ensures ChainInv(base, initial, RunFiles(base, initial, files, ok))
    decreases |files|
  {
    if files != [] {
      var n := |files|;
      var pre := files[..n - 1];
      assert forall f :: f in pre ==> f in files;
      RunFilesChain(base, initial, pre, ok);
      var o := RunFiles(base, initial, pre, ok);
      var file := files[n - 1];
      if o.failure.None? {
        match ExtractSampleName(file)
        case Err(_) =>
        case Ok(s) =>
          SampleChain(base, initial, o, Context(file, s, Paths.TrimmedName(file)), ok);
      }
    }
  }

  /** Every path a logged stage reads was on disk before the run or written by an earlier stage. */
  lemma ReadsInitialOrEarlier(base: string, initial: set<string>, files: seq<string>, ok: Stage -> bool)
    requires forall f :: f in files ==> base + f in initial
    requires SourcesAvailable(base, initial) && CacheConsistent(base, initial)
    ensures var log := RunFiles(base, initial, files, ok).log;
      forall i, p :: 0 <= i < |log| && p in log[i].inputs ==>
        p in initial || exists j :: 0 <= j < i && p in log[j].outputs
  {
    var log := RunFiles(base, initial, files, ok).log;
    RunFilesChain(base, initial, files, ok);
    forall i, p | 0 <= i < |log| && p in log[i].inputs
      ensures p in initial || exists j :: 0 <= j < i && p in log[j].outputs
    {
      assert p in Present(initial, log[..i]);
      WrittenSpec(log[..i]);
      if p !in initial {
        var j :| 0 <= j < i && p in log[..i][j].outputs;
        assert log[..i][j] == log[j];
      }
    }
  }

  // ----- The run looks at the initial disk only through the two cache checks -----

  /** The paths a run may take from the disk instead of writing them: raw files and references. */
  function Given(base: string, files: seq<string>): set<string>
  {
    (set f | f in files :: base + f) +
    {base + Paths.HairpinSource, base + Paths.MatureSource, base + Paths.HairpinFasta,
     base + Paths.MatureFasta, base + Paths.HairpinIndex, base + Paths.MatureIndex}
  }

  /** Two disks on which both existence checks come out the same. */
  ghost predicate SameCache(base: string, initial: set<string>, initial': set<string>)
  {
    (base + Paths.HairpinFasta in initial <==> base + Paths.HairpinFasta in initial') &&
    (base + Paths.MatureFasta in initial <==> base + Paths.MatureFasta in initial')
  }

  lemma SampleAgrees(base: string, initial: set<string>, initial': set<string>, o: Outcome, ctx: Context,
                     ok: Stage -> bool)
    requires SameCache(base, initial, initial')
    ensures RunSample(base, initial, o, ctx, ok) == RunSample(base, initial', o, ctx, ok)
  {
    var o1 := RunStage(o, CutadaptorStage(base, ctx), ok);
    var oh := ReferenceBuild(base, initial, o1, Paths.HairpinSource, Paths.HairpinFasta, Paths.HairpinIndex, ok);
    assert oh == ReferenceBuild(base, initial', o1, Paths.HairpinSource, Paths.HairpinFasta, Paths.HairpinIndex, ok);
    assert ReferenceStages(base, initial, o1, ok) == ReferenceStages(base, initial', o1, ok);
  }

  /** `RunFiles` depends on the initial disk only through the two cache checks. */
  lemma {:induction false} RunFilesAgrees(base: string, initial: set<string>, initial': set<string>,
                                          files: seq<string>, ok: Stage -> bool)
    requires SameCache(base, initial, initial')
    ensures RunFiles(base, initial, files, ok) == RunFiles(base, initial', files, ok)
    decreases |files|
  {
    if files != [] {
      var n := |files|;
      var file := files[n - 1];
      RunFilesAgrees(base, initial, initial', files[..n - 1], ok);
      var o := RunFiles(base, initial, files[..n - 1], ok);
      if o.failure.None? {
        match ExtractSampleName(file)
        case Err(_) =>
        case Ok(s) =>
          SampleAgrees(base, initial, initial', o, Context(file, s, Paths.TrimmedName(file)), ok);
      }
    }
  }

  /**
   * The stages chain: every path a stage reads is either a raw read file or a reference file
   * that was on disk before the run, or was written by an earlier stage. Leftovers of an
   * earlier run (trimmed reads, SAM, BAM, sorted BAM) are never read in place of this run's
   * own. This holds for every run, including one cut short by a failure, provided the raw
   * files and the references are there and a cached mature FASTA comes with its index.
   */
  lemma {:induction false} StagesReadEarlierOutputs(base: string, initial: set<string>, files: seq<string>, ok: Stage -> bool)
    requires forall f :: f in files ==> base + f in initial
    requires SourcesAvailable(base, initial) && CacheConsistent(base, initial)
    ensures var log := RunFiles(base, initial, files, ok).log;
      forall i, p :: 0 <= i < |log| && p in log[i].inputs ==>
        p in initial * Given(base, files) || exists j :: 0 <= j < i && p in log[j].outputs
  {
    var given := initial * Given(base, files);
    GivenKeepsPremises(base, initial, files);
    RunFilesAgrees(base, initial, given, files, ok);
    ReadsInitialOrEarlier(base, given, files, ok);
    var log := RunFiles(base, initial, files, ok).log;
    assert log == RunFiles(base, given, files, ok).log;
  }

  /** Keeping only the raw files and references of the disk keeps the chain's premises. */
  lemma GivenKeepsPremises(base: string, initial: set<string>, files: seq<string>)
    requires forall f :: f in files ==> base + f in initial
    requires SourcesAvailable(base, initial) && CacheConsistent(base, initial)
    ensures var given := initial * Given(base, files);
      (forall f :: f in files ==> base + f in given) &&
      SourcesAvailable(base, given) && CacheConsistent(base, given) && SameCache(base, initial, given)
  {
    var g := Given(base, files);
    assert base + Paths.HairpinSource in g && base + Paths.MatureSource in g;
    assert base + Paths.HairpinFasta in g && base + Paths.MatureFasta in g;
    assert base + Paths.MatureIndex in g;
  }

  /**
   * The per-sample stages hand their files on: the aligner reads the mature index and the
   * trimmed reads, flagstat and view read the SAM the aligner wrote, sort reads the BAM view
   * wrote, and index and idxstats read the sorted BAM.
   */
  lemma StageLinks(base: string, ctx: Context)
    requires ctx.trimmedFastqFile == Paths.TrimmedName(ctx.fastqFile)
    ensures AlignStage(base, ctx).inputs ==
      BuildIndexStage(base, Paths.MatureFasta, Paths.MatureIndex).outputs + CutadaptorStage(base, ctx).outputs
    ensures FlagstatStage(base, ctx).inputs == AlignStage(base, ctx).outputs
    ensures ViewStage(base, ctx).inputs == AlignStage(base, ctx).outputs
    ensures SortStage(base, ctx).inputs == ViewStage(base, ctx).outputs
    ensures IndexStage(base, ctx).inputs == SortStage(base, ctx).outputs
    ensures CountStage(base, ctx).inputs == SortStage(base, ctx).outputs
  {
  }

  // ----- The stage view and the content view of the reference cache agree -----

  /**
   * `ReferenceBuild` (paths only) and `IndexCache.BuildFiltered` (file contents) model the same
   * guarded build. Over a disk whose paths are those present, both skip exactly when the
   * filtered FASTA exists. When they do not skip and the source is there, the content build
   * adds exactly the path the filter stage writes, and, with the filter succeeding and the same
   * verdict on the index build, both raise exactly when `bowtie2-build` fails.
   */
  lemma CacheDecisionsAgree(fs: IndexCache.FileSystem, base: string, initial: set<string>, o: Outcome,
                            source: string, fasta: string, index: string, ok: Stage -> bool,
                            indexOk: string -> bool)
    requires o.failure.None? && fs.Keys == Present(initial, o.log)
    ensures ReferenceBuild(base, initial, o, source, fasta, index, ok) == o <==> base + fasta in fs
    ensures IndexCache.BuildFiltered(fs, base + source, base + fasta, indexOk) == IndexCache.Built(fs, None) <==>
      base + fasta in fs
    ensures base + fasta !in fs && base + source in fs ==>
      IndexCache.BuildFiltered(fs, base + source, base + fasta, indexOk).fs.Keys ==
        fs.Keys + Elements(FilterStage(base, source, fasta).outputs)
    ensures base + fasta !in fs && base + source in fs && ok(FilterStage(base, source, fasta)) &&
            indexOk(base + fasta) == ok(BuildIndexStage(base, fasta, index)) ==>
      (ReferenceBuild(base, initial, o, source, fasta, index, ok).failure.None? <==>
       IndexCache.BuildFiltered(fs, base + source, base + fasta, indexOk).error.None?)
  {
    if base + fasta !in fs {
      var filter := FilterStage(base, source, fasta);
      RunStageFacts(initial, o, filter, ok);
      RunStageExtends(RunStage(o, filter, ok), BuildIndexStage(base, fasta, index), ok);
      assert |ReferenceBuild(base, initial, o, source, fasta, index, ok).log| > |o.log|;
      if base + source in fs {
        var fs1 := IndexCache.BuildFiltered(fs, base + source, base + fasta, indexOk).fs;
        assert base + fasta in fs1;
      }
    }
  }

  // ----- Failures end the run -----

  ghost predicate CheckedSucceeded(log: seq<Stage>, ok: Stage -> bool)
  {
    forall j :: 0 <= j < |log| && Checked(log[j].tool) ==> ok(log[j])
  }

  /** The shape of an outcome: a tool failure is the last stage run; before it nothing raised. */
  ghost predicate FailureShape(o: Outcome, ok: Stage -> bool)
  {
    if o.failure.Some? && o.failure.value.ToolFailed? then
      var st := o.failure.value.stage;
      |o.log| > 0 && o.log[|o.log| - 1] == st && Checked(st.tool) && !ok(st) &&
      CheckedSucceeded(o.log[..|o.log| - 1], ok)
    else
      CheckedSucceeded(o.log, ok)
  }

  lemma RunStageShape(o: Outcome, st: Stage, ok: Stage -> bool)
    requires FailureShape(o, ok)
    requires o.failure.Some? ==> o.failure.value.ToolFailed?
    ensures FailureShape(RunStage(o, st, ok), ok)
    ensures RunStage(o, st, ok).failure.Some? ==> RunStage(o, st, ok).failure.value.ToolFailed?
  {
    if o.failure.None? {
      var log := o.log + [st];
      assert log[..|o.log|] == o.log;
    }
  }

  lemma ReferenceBuildShape(base: string, initial: set<string>, o: Outcome, source: string, fasta: string,
                            index: string, ok: Stage -> bool)
    requires FailureShape(o, ok)
    requires o.failure.Some? ==> o.failure.value.ToolFailed?
    ensures var o' := ReferenceBuild(base, initial, o, source, fasta, index, ok);
      FailureShape(o', ok) && (o'.failure.Some? ==> o'.failure.value.ToolFailed?)
  {
    var filter := FilterStage(base, source, fasta);
    RunStageShape(o, filter, ok);
    RunStageShape(RunStage(o, filter, ok), BuildIndexStage(base, fasta, index), ok);
  }

  lemma SampleShape(base: string, initial: set<string>, o: Outcome, ctx: Context, ok: Stage -> bool)
    requires FailureShape(o, ok) && o.failure.None?
    ensures var o' := RunSample(base, initial, o, ctx, ok);
      FailureShape(o', ok) && (o'.failure.Some? ==> o'.failure.value.ToolFailed?)
  {
    var o1 := RunStage(o, CutadaptorStage(base, ctx), ok);
    RunStageShape(o, CutadaptorStage(base, ctx), ok);
    var oh := ReferenceBuild(base, initial, o1, Paths.HairpinSource, Paths.HairpinFasta, Paths.HairpinIndex, ok);
    ReferenceBuildShape(base, initial, o1, Paths.HairpinSource, Paths.HairpinFasta, Paths.HairpinIndex, ok);
    var o2 := ReferenceBuild(base, initial, oh, Paths.MatureSource, Paths.MatureFasta, Paths.MatureIndex, ok);
    ReferenceBuildShape(base, initial, oh, Paths.MatureSource, Paths.MatureFasta, Paths.MatureIndex, ok);
    assert o2 == ReferenceStages(base, initial, o1, ok);
    var o3 := RunStage(o2, AlignStage(base, ctx), ok);
    RunStageShape(o2, AlignStage(base, ctx), ok);
    var o4 := RunStage(o3, FlagstatStage(base, ctx), ok);
    RunStageShape(o3, FlagstatStage(base, ctx), ok);
    var o5 := RunStage(o4, ViewStage(base, ctx), ok);
    RunStageShape(o4, ViewStage(base, ctx), ok);
    var o6 := RunStage(o5, SortStage(base, ctx), ok);
    RunStageShape(o5, SortStage(base, ctx), ok);
    var o7 := RunStage(o6, IndexStage(base, ctx), ok);
    RunStageShape(o6, IndexStage(base, ctx), ok);
    RunStageShape(o7, CountStage(base, ctx), ok);
  }

  /**
   * How a run ends. Without a failure, every file name had a `-` and every checked tool
   * succeeded. A bad file name is one of the inputs and has no `-`. A tool failure is the last
   * stage that ran, a checked one, and every checked stage before it succeeded: nothing runs
   * after it, in this sample or the next. An unchecked tool (`samtools view`, `idxstats`) that
   * fails does not stop the run.
   */
  lemma {:induction false} RunFilesFailure(base: string, initial: set<string>, files: seq<string>, ok: Stage -> bool)
    ensures FailureShape(RunFiles(base, initial, files, ok), ok)
    ensures var o := RunFiles(base, initial, files, ok);
      (o.failure.None? ==> forall f :: f in files ==> '-' in f) &&
      (o.failure.Some? && o.failure.value.BadFileName? ==>
        o.failure.value.file in files && '-' !in o.failure.value.file)
    decreases |files|
  {
    if files != [] {
      var n := |files|;
      var pre := files[..n - 1];
      var file := files[n - 1];
      RunFilesFailure(base, initial, pre, ok);
      var o := RunFiles(base, initial, pre, ok);
      assert forall f :: f in pre ==> f in files;
      assert forall f :: f in files ==> f in pre || f == file;
      assert RunFiles(base, initial, files, ok) == RunFile(base, initial, o, file, ok);
      if o.failure.None? {
        var name := ExtractSampleName(file);
        if name.Err? {
          assert RunFile(base, initial, o, file, ok) == Outcome(o.log, Some(BadFileName(file)));
        } else {
          var ctx := Context(file, name.value, Paths.TrimmedName(file));
          assert RunFile(base, initial, o, file, ok) == RunSample(base, initial, o, ctx, ok);
          SampleShape(base, initial, o, ctx, ok);
        }
      }
    }
  }

  /**
   * A bad file name is the first input without `-`: every file before it was processed, and
   * the run ends with exactly the stages those earlier files ran.
   */
  lemma {:induction false} BadFileNameIsFirst(base: string, initial: set<string>, files: seq<string>, ok: Stage -> bool)
    ensures var o := RunFiles(base, initial, files, ok);
      o.failure.Some? && o.failure.value.BadFileName? ==>
        exists k :: 0 <= k < |files| && files[k] == o.failure.value.file && '-' !in files[k] &&
          (forall j :: 0 <= j < k ==> '-' in files[j]) &&
          RunFiles(base, initial, files[..k], ok) == Outcome(o.log, None)
    decreases |files|
  {
    if files != [] {
      var n := |files|;
      var pre := files[..n - 1];
      var file := files[n - 1];
      var o := RunFiles(base, initial, pre, ok);
      assert RunFiles(base, initial, files, ok) == RunFile(base, initial, o, file, ok);
      if o.failure.None? {
        RunFilesFailure(base, initial, pre, ok);
        var name := ExtractSampleName(file);
        if name.Err? {
          assert files[..n - 1] == pre;
          assert forall j :: 0 <= j < n - 1 ==> files[j] in pre;
          assert RunFiles(base, initial, files, ok) == Outcome(o.log, Some(BadFileName(file)));
          assert RunFiles(base, initial, files[..n - 1], ok) == Outcome(o.log, None);
        } else {
          var ctx := Context(file, name.value, Paths.TrimmedName(file));
          assert RunFile(base, initial, o, file, ok) == RunSample(base, initial, o, ctx, ok);
          SampleShape(base, initial, o, ctx, ok);
          assert RunFiles(base, initial, files, ok).failure.Some? ==>
            RunFiles(base, initial, files, ok).failure.value.ToolFailed?;
        }
      } else if o.failure.value.BadFileName? {
        BadFileNameIsFirst(base, initial, pre, ok);
        var k :| 0 <= k < |pre| && pre[k] == o.failure.value.file && '-' !in pre[k] &&
          (forall j :: 0 <= j < k ==> '-' in pre[j]) &&
          RunFiles(base, initial, pre[..k], ok) == Outcome(o.log, None);
        assert files[..k] == pre[..k];
        assert forall j :: 0 <= j < k ==> files[j] == pre[j];
        assert RunFiles(base, initial, files, ok) == o;
      }
    }
  }

  // ----- Each reference is filtered and indexed at most once per run -----

  predicate IsReferenceStage(st: Stage)
  {
    st.tool == FilterReference || st.tool == Bowtie2Build
  }

  ghost predicate NoReferenceStageRepeated(log: seq<Stage>)
  {
    forall i, j :: 0 <= i < j < |log| && IsReferenceStage(log[i]) ==> log[i] != log[j]
  }

  /** Once a reference's filter or index stage has run, its filtered FASTA has been written. */
  ghost predicate Recorded(base: string, log: seq<Stage>, source: string, fasta: string, index: string)
  {
    (FilterStage(base, source, fasta) in log || BuildIndexStage(base, fasta, index) in log) ==>
      base + fasta in Written(log)
  }

  ghost predicate OnceInv(base: string, log: seq<Stage>)
  {
    NoReferenceStageRepeated(log) &&
    Recorded(base, log, Paths.HairpinSource, Paths.HairpinFasta, Paths.HairpinIndex) &&
    Recorded(base, log, Paths.MatureSource, Paths.MatureFasta, Paths.MatureIndex)
  }

  lemma ReferenceStagesDistinct(base: string)
    ensures FilterStage(base, Paths.HairpinSource, Paths.HairpinFasta) != FilterStage(base, Paths.MatureSource, Paths.MatureFasta)
    ensures BuildIndexStage(base, Paths.HairpinFasta, Paths.HairpinIndex) != BuildIndexStage(base, Paths.MatureFasta, Paths.MatureIndex)
  {
    Paths.UnderBaseInjective(base, Paths.HairpinFasta, Paths.MatureFasta);
  }

  lemma OnceAppend(base: string, log: seq<Stage>, st: Stage)
    requires OnceInv(base, log)
    requires IsReferenceStage(st) ==> st !in log
    requires st == FilterStage(base, Paths.HairpinSource, Paths.HairpinFasta) ||
             st == BuildIndexStage(base, Paths.HairpinFasta, Paths.HairpinIndex) ==>
               base + Paths.HairpinFasta in Written(log + [st])
    requires st == FilterStage(base, Paths.MatureSource, Paths.MatureFasta) ||
             st == BuildIndexStage(base, Paths.MatureFasta, Paths.MatureIndex) ==>
               base + Paths.MatureFasta in Written(log + [st])
    ensures OnceInv(base, log + [st])
  {
    var log' := log + [st];
    WrittenAppend(log, st);
    forall i, j | 0 <= i < j < |log'| && IsReferenceStage(log'[i])
      ensures log'[i] != log'[j]
    {
      if j == |log| {
        assert log'[i] == log[i];
      } else {
        assert log'[i] == log[i] && log'[j] == log[j];
      }
    }
  }

  lemma OnceStage(base: string, o: Outcome, st: Stage, ok: Stage -> bool)
    requires OnceInv(base, o.log) && !IsReferenceStage(st)
    ensures OnceInv(base, RunStage(o, st, ok).log)
  {
    if o.failure.None? {
      OnceAppend(base, o.log, st);
    }
  }

  lemma OnceReference(base: string, initial: set<string>, o: Outcome, source: string, fasta: string,
                      index: string, ok: Stage -> bool)
    requires OnceInv(base, o.log)
    requires (source, fasta, index) == (Paths.HairpinSource, Paths.HairpinFasta, Paths.HairpinIndex) ||
             (source, fasta, index) == (Paths.MatureSource, Paths.MatureFasta, Paths.MatureIndex)
    ensures OnceInv(base, ReferenceBuild(base, initial, o, source, fasta, index, ok).log)
  {
    if base + fasta !in Present(initial, o.log) && o.failure.None? {
      var filter := FilterStage(base, source, fasta);
      var build := BuildIndexStage(base, fasta, index);
      ReferenceStagesDistinct(base);
      WrittenAppend(o.log, filter);
      OnceAppend(base, o.log, filter);
      var o1 := RunStage(o, filter, ok);
      if o1.failure.None? {
        WrittenAppend(o1.log, build);
        OnceAppend(base, o1.log, build);
      }
    }
  }

  lemma OnceSample(base: string, initial: set<string>, o: Outcome, ctx: Context, ok: Stage -> bool)
    requires OnceInv(base, o.log)
    ensures OnceInv(base, RunSample(base, initial, o, ctx, ok).log)
  {
    var o1 := RunStage(o, CutadaptorStage(base, ctx), ok);
    OnceStage(base, o, CutadaptorStage(base, ctx), ok);
    var oh := ReferenceBuild(base, initial, o1, Paths.HairpinSource, Paths.HairpinFasta, Paths.HairpinIndex, ok);
    OnceReference(base, initial, o1, Paths.HairpinSource, Paths.HairpinFasta, Paths.HairpinIndex, ok);
    var o2 := ReferenceBuild(base, initial, oh, Paths.MatureSource, Paths.MatureFasta, Paths.MatureIndex, ok);
    OnceReference(base, initial, oh, Paths.MatureSource, Paths.MatureFasta, Paths.MatureIndex, ok);
    assert o2 == ReferenceStages(base, initial, o1, ok);
    var o3 := RunStage(o2, AlignStage(base, ctx), ok);
    OnceStage(base, o2, AlignStage(base, ctx), ok);
    var o4 := RunStage(o3, FlagstatStage(base, ctx), ok);
    OnceStage(base, o3, FlagstatStage(base, ctx), ok);
    var o5 := RunStage(o4, ViewStage(base, ctx), ok);
    OnceStage(base, o4, ViewStage(base, ctx), ok);
    var o6 := RunStage(o5, SortStage(base, ctx), ok);
    OnceStage(base, o5, SortStage(base, ctx), ok);
    var o7 := RunStage(o6, IndexStage(base, ctx), ok);
    OnceStage(base, o6, IndexStage(base, ctx), ok);
    OnceStage(base, o7, CountStage(base, ctx), ok);
  }

  lemma {:induction false} OnceFiles(base: string, initial: set<string>, files: seq<string>, ok: Stage -> bool)
    ensures OnceInv(base, RunFiles(base, initial, files, ok).log)
    decreases |files|
  {
    if files != [] {
      var n := |files|;
      var o := RunFiles(base, initial, files[..n - 1], ok);
      var file := files[n - 1];
      OnceFiles(base, initial, files[..n - 1], ok);
      assert RunFiles(base, initial, files, ok) == RunFile(base, initial, o, file, ok);
      if o.failure.None? {
        var name := ExtractSampleName(file);
        if name.Ok? {
          var ctx := Context(file, name.value, Paths.TrimmedName(file));
          assert RunFile(base, initial, o, file, ok) == RunSample(base, initial, o, ctx, ok);
          OnceSample(base, initial, o, ctx, ok);
        }
      }
    }
  }

  /**
   * The existence check makes the reference build a cache: over a whole batch, the filter and
   * the index build of each reference run at most once, however many samples there are.
   */
  lemma ReferenceBuiltAtMostOnce(base: string, initial: set<string>, files: seq<string>, ok: Stage -> bool)
    ensures var log := RunFiles(base, initial, files, ok).log;
      forall i, j :: 0 <= i < j < |log| && IsReferenceStage(log[i]) ==> log[i] != log[j]
  {
    OnceFiles(base, initial, files, ok);
  }

  // ----- Samples run one after another; finished work is never undone -----

  lemma {:induction false} RunFilesExtends(base: string, initial: set<string>, files: seq<string>, n: nat, ok: Stage -> bool)
    requires n <= |files|
    ensures RunFiles(base, initial, files[..n], ok).log <= RunFiles(base, initial, files, ok).log
    decreases |files| - n
  {
    if n < |files| {
      var m := |files|;
      assert files[..m - 1][..n] == files[..n];
      RunFilesExtends(base, initial, files[..m - 1], n, ok);
      var o := RunFiles(base, initial, files[..m - 1], ok);
      var early := RunFiles(base, initial, files[..n], ok).log;
      var file := files[m - 1];
      assert RunFiles(base, initial, files, ok) == RunFile(base, initial, o, file, ok);
      if o.failure.None? {
        var name := ExtractSampleName(file);
        if name.Ok? {
          var ctx := Context(file, name.value, Paths.TrimmedName(file));
          assert RunFile(base, initial, o, file, ok) == RunSample(base, initial, o, ctx, ok);
          SampleExtends(base, initial, o, ctx, ok);
          PrefixTransitive(early, o.log, RunSample(base, initial, o, ctx, ok).log);
        }
      }
    } else {
      assert files[..n] == files;
    }
  }

  lemma PrefixTransitive(a: seq<Stage>, b: seq<Stage>, c: seq<Stage>)
    requires a <= b && b <= c
    ensures a <= c
  {
    assert c[..|a|] == c[..|b|][..|a|];
  }

  lemma RunStageExtends(o: Outcome, st: Stage, ok: Stage -> bool)
    ensures o.log <= RunStage(o, st, ok).log
  {
    if o.failure.None? {
      assert (o.log + [st])[..|o.log|] == o.log;
    }
  }

  lemma ReferenceBuildExtends(base: string, initial: set<string>, o: Outcome, source: string, fasta: string,
                              index: string, ok: Stage -> bool)
    ensures o.log <= ReferenceBuild(base, initial, o, source, fasta, index, ok).log
  {
    var filter := FilterStage(base, source, fasta);
    RunStageExtends(o, filter, ok);
    RunStageExtends(RunStage(o, filter, ok), BuildIndexStage(base, fasta, index), ok);
    PrefixTransitive(o.log, RunStage(o, filter, ok).log,
                     RunStage(RunStage(o, filter, ok), BuildIndexStage(base, fasta, index), ok).log);
  }

  lemma SampleExtends(base: string, initial: set<string>, o: Outcome, ctx: Context, ok: Stage -> bool)
    ensures o.log <= RunSample(base, initial, o, ctx, ok).log
  {
    var o1 := RunStage(o, CutadaptorStage(base, ctx), ok);
    RunStageExtends(o, CutadaptorStage(base, ctx), ok);
    var oh := ReferenceBuild(base, initial, o1, Paths.HairpinSource, Paths.HairpinFasta, Paths.HairpinIndex, ok);
    ReferenceBuildExtends(base, initial, o1, Paths.HairpinSource, Paths.HairpinFasta, Paths.HairpinIndex, ok);
    PrefixTransitive(o.log, o1.log, oh.log);
    var o2 := ReferenceBuild(base, initial, oh, Paths.MatureSource, Paths.MatureFasta, Paths.MatureIndex, ok);
    ReferenceBuildExtends(base, initial, oh, Paths.MatureSource, Paths.MatureFasta, Paths.MatureIndex, ok);
    PrefixTransitive(o.log, oh.log, o2.log);
    assert o2 == ReferenceStages(base, initial, o1, ok);
    var o3 := RunStage(o2, AlignStage(base, ctx), ok);
    RunStageExtends(o2, AlignStage(base, ctx), ok);
    PrefixTransitive(o.log, o2.log, o3.log);
    var o4 := RunStage(o3, FlagstatStage(base, ctx), ok);
    RunStageExtends(o3, FlagstatStage(base, ctx), ok);
    PrefixTransitive(o.log, o3.log, o4.log);
    var o5 := RunStage(o4, ViewStage(base, ctx), ok);
    RunStageExtends(o4, ViewStage(base, ctx), ok);
    PrefixTransitive(o.log, o4.log, o5.log);
    var o6 := RunStage(o5, SortStage(base, ctx), ok);
    RunStageExtends(o5, SortStage(base, ctx), ok);
    PrefixTransitive(o.log, o5.log, o6.log);
    var o7 := RunStage(o6, IndexStage(base, ctx), ok);
    RunStageExtends(o6, IndexStage(base, ctx), ok);
    PrefixTransitive(o.log, o6.log, o7.log);
    var o8 := RunStage(o7, CountStage(base, ctx), ok);
    RunStageExtends(o7, CountStage(base, ctx), ok);
    PrefixTransitive(o.log, o7.log, o8.log);
  }

  /**
   * A batch is processed file by file: the stages run for the first `n` files are exactly the
   * beginning of the stages run for all of them, so a later failure leaves the earlier samples'
   * work in place and every stage of an earlier sample precedes every stage of a later one.
   */
  lemma EarlierSamplesComeFirst(base: string, initial: set<string>, files: seq<string>, n: nat, ok: Stage -> bool)
    requires n <= |files|
    ensures var early := RunFiles(base, initial, files[..n], ok).log;
      var all := RunFiles(base, initial, files, ok).log;
      |early| <= |all| && all[..|early|] == early
  {
    RunFilesExtends(base, initial, files, n, ok);
  }

  // ----- Naming -----

  /**
   * The raw read file is never overwritten by the outputs its sample writes under the base
   * directory: it has a `-`, which none of them has, and the trimmed name is longer.
   */
  lemma RawFileNotOverwritten(file: string, sample: string)
    requires ExtractSampleName(file) == Ok(sample)
    ensures file !in [Paths.TrimmedName(file), Paths.SamName(sample), Paths.BamName(sample),
                      Paths.SortedBamName(sample), Paths.HairpinFasta, Paths.HairpinIndex,
                      Paths.MatureFasta, Paths.MatureIndex]
  {
    assert '-' in file && '-' !in sample;
    assert |Paths.TrimmedName(file)| > |file|;
    assert '-' !in "aln_" && '-' !in ".sam" && '-' !in ".bam" && '-' !in "sorted_";
    assert file != Paths.SamName(sample) && file != Paths.BamName(sample);
    assert file != Paths.SortedBamName(sample);
    assert '-' !in Paths.HairpinFasta && '-' !in Paths.HairpinIndex;
    assert '-' !in Paths.MatureFasta && '-' !in Paths.MatureIndex;
  }

  /** With both references cached and every tool succeeding, a sample runs its seven stages. */
  lemma CachedSampleStages(base: string, initial: set<string>, o: Outcome, ctx: Context, ok: Stage -> bool)
    requires o.failure.None?
    requires base + Paths.HairpinFasta in initial && base + Paths.MatureFasta in initial
    requires forall st :: ok(st)
    ensures RunSample(base, initial, o, ctx, ok) ==
      Outcome(o.log + [CutadaptorStage(base, ctx), AlignStage(base, ctx), FlagstatStage(base, ctx),
                       ViewStage(base, ctx), SortStage(base, ctx), IndexStage(base, ctx),
                       CountStage(base, ctx)], None)
  {
    var o1 := RunStage(o, CutadaptorStage(base, ctx), ok);
    assert ReferenceStages(base, initial, o1, ok) == o1;
  }

  /**
   * A single file `samp1-R1.fastq` with both references cached and every tool succeeding runs,
   * in this order: trimming, alignment, the flagstat report, the BAM conversion, the sort, the
   * index of the sorted BAM and the count table, for the sample `1` (`ExampleNames` spells out
   * the paths they write).
   */
  lemma SingleFileRun(base: string, initial: set<string>, ok: Stage -> bool)
    requires base + Paths.HairpinFasta in initial && base + Paths.MatureFasta in initial
    requires forall st :: ok(st)
    ensures var ctx := Context("samp1-R1.fastq", "1", Paths.TrimmedName("samp1-R1.fastq"));
      RunFiles(base, initial, ["samp1-R1.fastq"], ok) ==
      Outcome([CutadaptorStage(base, ctx), AlignStage(base, ctx), FlagstatStage(base, ctx),
               ViewStage(base, ctx), SortStage(base, ctx), IndexStage(base, ctx),
               CountStage(base, ctx)], None)
  {
    var file := "samp1-R1.fastq";
    var ctx := Context(file, "1", Paths.TrimmedName(file));
    var o0 := Outcome([], None);
    var stages := [CutadaptorStage(base, ctx), AlignStage(base, ctx), FlagstatStage(base, ctx),
                   ViewStage(base, ctx), SortStage(base, ctx), IndexStage(base, ctx),
                   CountStage(base, ctx)];
    SingleFileIsOneSample(base, initial, ok);
    CachedSampleStages(base, initial, o0, ctx, ok);
    assert o0.log + stages == stages;
  }

  lemma SingleFileIsOneSample(base: string, initial: set<string>, ok: Stage -> bool)
    ensures RunFiles(base, initial, ["samp1-R1.fastq"], ok) ==
      RunSample(base, initial, Outcome([], None), Context("samp1-R1.fastq", "1", Paths.TrimmedName("samp1-R1.fastq")), ok)
  {
    assert ["samp1-R1.fastq"][..0] == [];
    assert RunFiles(base, initial, ["samp1-R1.fastq"], ok) == RunFile(base, initial, Outcome([], None), "samp1-R1.fastq", ok);
    SampOneExample();
  }

  lemma ExampleNames()
    ensures Paths.TrimmedName("samp1-R1.fastq") == "trimmed_samp1-R1.fastq"
    ensures Paths.SamName("1") == "aln_1.sam" && Paths.BamName("1") == "aln_1.bam"
    ensures Paths.SortedBamName("1") == "sorted_aln_1.bam"
    ensures Paths.ReportPath("1") == "Samtools_flagstat/1_report.txt"
    ensures Paths.CountPath("1") == "Raw_counts/1_raw_count.txt"
  {
  }

  /**
   * The existence check looks only at the filtered FASTA. With a cached mature FASTA but no
   * mature index on disk, the aligner of the next sample reads a path that is neither there nor
   * written by any stage before it: the chain needs its `CacheConsistent` premise.
   */
  lemma StaleMatureCache(base: string, initial: set<string>, o: Outcome, ctx: Context, ok: Stage -> bool)
    requires o.failure.None?
    requires base + Paths.HairpinFasta in initial && base + Paths.MatureFasta in initial
    requires base + Paths.MatureIndex !in Present(initial, o.log)
    requires forall st :: ok(st)
    ensures var log := RunSample(base, initial, o, ctx, ok).log;
      var i := |o.log| + 1;
      i < |log| && log[i].tool == Bowtie2 && base + Paths.MatureIndex in log[i].inputs &&
      base + Paths.MatureIndex !in Present(initial, log[..i])
  {
    CachedSampleStages(base, initial, o, ctx, ok);
    var log := RunSample(base, initial, o, ctx, ok).log;
    var i := |o.log| + 1;
    assert log[..i] == o.log + [CutadaptorStage(base, ctx)];
    assert log[i] == AlignStage(base, ctx);
    WrittenAppend(o.log, CutadaptorStage(base, ctx));
    Paths.UnderBaseInjective(base, Paths.MatureIndex, Paths.TrimmedName(ctx.fastqFile));
    assert Paths.MatureIndex[0] != Paths.TrimmedName(ctx.fastqFile)[0];
  }
}
