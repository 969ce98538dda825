/**
 * The per-sample driver of the script: for each raw read file named on the command line the
 * main loop derives the sample name and calls the stages in a fixed order. Every external tool
 * becomes a `Stage` with the paths it reads and writes; whether a tool succeeds is a parameter.
 * A failure the script notices (a `check_output` call, or `open` on a missing file) ends the run.
 */
module Pipeline {
  import opened Wrappers
  import opened SampleName
  import Paths

  datatype Tool =
    | Cutadapt         // cutadaptor, check_output
    | FilterReference  // the species filter of make_mature_hairpin_bowtie2_index
    | Bowtie2Build     // check_output
    | Bowtie2          // align_to_index, check_output
    | Flagstat         // check_sam_file, check_output
    | View             // subprocess.call: its exit status is ignored
    | Sort             // check_output
    | Index            // check_output
    | Idxstats         // generate_raw_counts, Popen piped into cut: never awaited

  /** Whether a failure of the tool raises in the script. */
  predicate Checked(t: Tool)
  {
    t != View && t != Idxstats
  }

  datatype Stage = Stage(tool: Tool, inputs: seq<string>, outputs: seq<string>)

  /** The three module-level variables the main loop sets before calling the stages. */
  datatype Context = Context(fastqFile: string, sampleName: string, trimmedFastqFile: string)

  datatype Failure = BadFileName(file: string) | ToolFailed(stage: Stage)

  /** The stages run so far, in order, and the failure that ended the run, if any. */
  datatype Outcome = Outcome(log: seq<Stage>, failure: Option<Failure>)

  /** The paths of a list, as a set. */
  function Elements(paths: seq<string>): (r: set<string>)
    ensures forall p :: p in r <==> p in paths
  {
    if paths == [] then {} else {paths[0]} + Elements(paths[1..])
  }

  /** Every path some stage of `log` has written. */
  function Written(log: seq<Stage>): set<string>
    decreases |log|
  {
    if log == [] then {}
    else Written(log[..|log| - 1]) + Elements(log[|log| - 1].outputs)
  }

  /** The paths that exist: those there before the run and those written since. */
  function Present(initial: set<string>, log: seq<Stage>): set<string>
  {
    initial + Written(log)
  }

  /** Runs one stage unless the run has already failed. */
  function RunStage(o: Outcome, st: Stage, ok: Stage -> bool): Outcome
  {
    if o.failure.Some? then o
    else Outcome(o.log + [st], if Checked(st.tool) && !ok(st) then Some(ToolFailed(st)) else None)
  }

  // ----- The stages, with the paths each source line builds -----

  function CutadaptorStage(base: string, ctx: Context): Stage
  {
    Stage(Cutadapt, [base + ctx.fastqFile], [base + Paths.TrimmedName(ctx.fastqFile)])
  }

  function FilterStage(base: string, source: string, fasta: string): Stage
  {
    Stage(FilterReference, [base + source], [base + fasta])
  }

  function BuildIndexStage(base: string, fasta: string, index: string): Stage
  {
    Stage(Bowtie2Build, [base + fasta], [base + index])
  }

  function AlignStage(base: string, ctx: Context): Stage
  {
    Stage(Bowtie2, [base + Paths.AlignIndex, base + ctx.trimmedFastqFile], [base + Paths.SamName(ctx.sampleName)])
  }

  function FlagstatStage(base: string, ctx: Context): Stage
  {
    Stage(Flagstat, [base + Paths.SamName(ctx.sampleName)], [Paths.ReportPath(ctx.sampleName)])
  }

  function ViewStage(base: string, ctx: Context): Stage
  {
    Stage(View, [base + Paths.SamName(ctx.sampleName)], [base + Paths.BamName(ctx.sampleName)])
  }

  function SortStage(base: string, ctx: Context): Stage
  {
    Stage(Sort, [base + Paths.BamName(ctx.sampleName)], [base + Paths.SortedBamName(ctx.sampleName)])
  }

  /** `samtools index` names its `.bai` output itself; the script names no path for it. */
  function IndexStage(base: string, ctx: Context): Stage
  {
    Stage(Index, [base + Paths.SortedBamName(ctx.sampleName)], [])
  }

  function CountStage(base: string, ctx: Context): Stage
  {
    Stage(Idxstats, [base + Paths.SortedBamName(ctx.sampleName)], [Paths.CountPath(ctx.sampleName)])
  }

  /** One reference: filter and index it unless the filtered FASTA already exists. */
  function ReferenceBuild(base: string, initial: set<string>, o: Outcome, source: string, fasta: string,
                          index: string, ok: Stage -> bool): Outcome
  {
    if base + fasta in Present(initial, o.log) then o
    else RunStage(RunStage(o, FilterStage(base, source, fasta), ok), BuildIndexStage(base, fasta, index), ok)
  }

  /** `make_mature_hairpin_bowtie2_index`: the hairpin reference, then the mature one. */
  function ReferenceStages(base: string, initial: set<string>, o: Outcome, ok: Stage -> bool): Outcome
  {
    var o1 := ReferenceBuild(base, initial, o, Paths.HairpinSource, Paths.HairpinFasta, Paths.HairpinIndex, ok);
    ReferenceBuild(base, initial, o1, Paths.MatureSource, Paths.MatureFasta, Paths.MatureIndex, ok)
  }

  /** The body of the main loop after the context is set: the stage functions in their order. */
  function RunSample(base: string, initial: set<string>, o: Outcome, ctx: Context, ok: Stage -> bool): Outcome
  {
    var o1 := RunStage(o, CutadaptorStage(base, ctx), ok);
    var o2 := ReferenceStages(base, initial, o1, ok);
    var o3 := RunStage(o2, AlignStage(base, ctx), ok);
    var o4 := RunStage(o3, FlagstatStage(base, ctx), ok);
    var o5 := RunStage(o4, ViewStage(base, ctx), ok);
    var o6 := RunStage(o5, SortStage(base, ctx), ok);
    var o7 := RunStage(o6, IndexStage(base, ctx), ok);
    RunStage(o7, CountStage(base, ctx), ok)
  }

  /** One iteration of the main loop; a file name without `-` raises before any stage runs. */
  function RunFile(base: string, initial: set<string>, o: Outcome, file: string, ok: Stage -> bool): Outcome
  {
    if o.failure.Some? then o
    else match ExtractSampleName(file)
      case Err(_) => Outcome(o.log, Some(BadFileName(file)))
      case Ok(s) => RunSample(base, initial, o, Context(file, s, Paths.TrimmedName(file)), ok)
  }

  /** The whole main loop over the files, in order. */
  function RunFiles(base: string, initial: set<string>, files: seq<string>, ok: Stage -> bool): Outcome
    decreases |files|
  {
    if files == [] then Outcome([], None)
    else RunFile(base, initial, RunFiles(base, initial, files[..|files| - 1], ok), files[|files| - 1], ok)
  }

  lemma {:induction false} RunFilesStops(base: string, initial: set<string>, files: seq<string>, n: nat, ok: Stage -> bool)
    requires n <= |files| && RunFiles(base, initial, files[..n], ok).failure.Some?
    ensures RunFiles(base, initial, files, ok) == RunFiles(base, initial, files[..n], ok)
    decreases |files| - n
  {
    if n < |files| {
      var m := |files|;
      assert files[..m - 1][..n] == files[..n];
      RunFilesStops(base, initial, files[..m - 1], n, ok);
      var o := RunFiles(base, initial, files[..m - 1], ok);
      assert o.failure.Some?;
      assert RunFiles(base, initial, files, ok) == RunFile(base, initial, o, files[m - 1], ok);
    } else {
      assert files[..n] == files;
    }
  }

  /**
   * The `__main__` loop: it sets `fastq_file`, `sample_name` and `trimmed_fastq_file` for each
   * file and runs the stages, until a stage or a file name raises.
   */
  method RunPipeline(base: string, initial: set<string>, files: seq<string>, ok: Stage -> bool)
    returns (log: seq<Stage>, failure: Option<Failure>)
    ensures Outcome(log, failure) == RunFiles(base, initial, files, ok)
  {
    log, failure := [], None;
    var fastqFile, sampleName, trimmedFastqFile := "", "", "";
    var i := 0;
    while i < |files| && failure.None?
      invariant 0 <= i <= |files|
      invariant Outcome(log, failure) == RunFiles(base, initial, files[..i], ok)
    {
      fastqFile := files[i];
      var name := ExtractSampleName(fastqFile);
      if name.Err? {
        failure := Some(BadFileName(fastqFile));
      } else {
        sampleName := name.value;
        trimmedFastqFile := Paths.TrimmedName(fastqFile);
        var o := RunSample(base, initial, Outcome(log, None), Context(fastqFile, sampleName, trimmedFastqFile), ok);
        log, failure := o.log, o.failure;
      }
      assert files[..i + 1][..i] == files[..i];
      i := i + 1;
    }
    if i < |files| {
      RunFilesStops(base, initial, files, i, ok);
    } else {
      assert files[..i] == files;
    }
  }
}
