# fastq_to_raw_counts: a verified model of the pipeline's own logic

The script `fastq_to_raw_counts.py` turns small-RNA sequencing reads into per-sample raw
count tables. Most of the work is done by external tools: cutadapt, bowtie2, samtools and `cut`.
This project models the three parts of the script that are its own logic, and proves what they
guarantee:

* **Sample names** (`SampleName`). `extract_sample_name` returns `file[4:file.index("-")]`.
  A name without `-` raises. A first `-` at index 4 or earlier gives the empty name.
* **The reference species filter and its cache** (`ReferenceFilter`, `IndexCache`).
  `make_mature_hairpin_bowtie2_index` turns `hairpin.fa` and `mature.fa` into
  `hsa_miRNA_hairpin.fa` and `hsa_miRNA_mature.fa`. The filter is a two-state line machine.
  A `>hsa` header sets the flag and is kept. Any other header clears the flag. A sequence line
  is kept, with `U` rewritten to `T`, only while the flag is set. Each build is skipped when its
  output file already exists. The loop is the method `FilterHsa`, proved equal to the state
  machine `Filter`. The cache works over a file system modelled as a map from path to lines.
  Whether `bowtie2-build` succeeds on a FASTA is a parameter. A step that raises, on a
  missing source or a failed index build, returns the file system as it left it. So a hairpin
  FASTA written before the raise stays on disk, and the next run skips its build.
* **The stage chain** (`Paths`, `Pipeline`, `PipelineProperties`). The `__main__` loop sets
  the three module-level variables and calls the stages in a fixed order. Each external tool
  call is a `Stage` with the paths it reads and the paths it writes. The loop is the method
  `RunPipeline`, proved equal to the function `RunFiles`. Whether each tool succeeds is a
  parameter. A failure raised by `check_output` (or by `open` of a missing reference) ends
  the run. The exit status of `samtools view` (`subprocess.call`) and of the
  `idxstats | cut` pipe (`Popen`) is never checked, so a failing exit status does not stop
  the run. A program that cannot be started at all (for instance `cut` missing from `PATH`)
  makes `subprocess.call` or `Popen` raise `OSError`, which does end the run. The model does
  not cover that case.

The reference cache appears twice, at two levels of detail. `IndexCache` is the authority on
what the filtered FASTAs contain. `Pipeline` is the authority on which stages run, in what
order, and which paths they read and write. `PipelineProperties.CacheDecisionsAgree` shows
that both skip a build under the same condition, and that both write the same path.

Two readings of the code that a reader might not expect:

* A file named `samp1-R1.fastq` gets the sample name `1`, not `samp1`. The slice starts at
  index 4, which suits the `SCDS`-prefixed file names that the script's comment mentions
  (`SampleName.SampOneExample`, `PipelineProperties.SingleFileRun`).
* The cache checks only for the filtered `.fa` file. If that file exists but its bowtie2 index
  does not, the aligner reads an index that nothing wrote. Hence the chain theorem assumes that
  a cached `hsa_miRNA_mature.fa` comes with `hsa_miRNA_mature_index`
  (`PipelineProperties.StaleMatureCache`).

Files: `wrappers.dfy` (Option and Result), `sample_name.dfy`, `reference_filter.dfy`,
`index_cache.dfy`, `paths.dfy`, `pipeline.dfy`, `pipeline_properties.dfy`.

## Model

| member | source | states |
|---|---|---|
| SampleName.FirstIndexOf | fastq_to_raw_counts.py:19 | `str.index`: None exactly when the character is absent; otherwise an in-range position holding it, with no earlier occurrence |
| SampleName.ExtractSampleName | fastq_to_raw_counts.py:18-19 | error exactly when the name has no `-`; the result never contains `-`; a non-empty result is the text from index 4 up to a `-`, with no `-` before it; an empty result means a `-` at index 4 or earlier |
| SampleName.ConventionalFileName | fastq_to_raw_counts.py:18-19 | a name `XXXX<name>-<rest>` with no `-` in the first four characters or in `<name>` yields exactly `<name>` |
| SampleName.SampOneExample | fastq_to_raw_counts.py:19 | `samp1-R1.fastq` yields the sample `1` |
| ReferenceFilter.ReplaceUWithT | fastq_to_raw_counts.py:62 | same length; every `U` becomes `T` and every other character, lowercase `u` included, is unchanged; no `U` remains |
| ReferenceFilter.ReplaceUWithTStable | fastq_to_raw_counts.py:62 | rewriting twice equals rewriting once; the rewrite never turns a line into a header or a header into a non-header, and never creates a `>hsa` prefix |
| ReferenceFilter.FilterHsa | fastq_to_raw_counts.py:51-62 | the loop over lines, updating `hsa` and appending to `res`, computes the state machine's output `Filter` |
| ReferenceFilter.RunTracksHeader | fastq_to_raw_counts.py:52-61 | after any prefix, the flag is set exactly when the most recent header exists and starts with `>hsa`; it starts unset |
| ReferenceFilter.FilterSelectsKeptLines | fastq_to_raw_counts.py:54-62 | the output is an order-preserving subsequence of the input, selected through increasing indices. These are exactly the `>hsa` headers, copied verbatim, and the sequence lines whose most recent header is `>hsa`, rewritten. Sequence lines before any header are dropped |
| ReferenceFilter.FilterLength | fastq_to_raw_counts.py:54-65 | the written file has no more lines than the source |
| ReferenceFilter.FilterHeaders | fastq_to_raw_counts.py:55-59 | a header is in the output if and only if it is an input line starting with `>hsa` |
| ReferenceFilter.FilterSequenceLinesHaveNoU | fastq_to_raw_counts.py:60-62 | no sequence line of the output contains `U` |
| ReferenceFilter.FilterIdempotent | fastq_to_raw_counts.py:54-62 | filtering the filter's output returns it unchanged |
| IndexCache.MakeFilteredFasta | fastq_to_raw_counts.py:49-66 | the existence-checked read, filter, write and index build of one reference equal `BuildFiltered` |
| IndexCache.MakeMatureHairpinIndex | fastq_to_raw_counts.py:48-85 | the hairpin build and then the mature build equal `BuildReferences`; a missing source or a failed index build in the first stops the second |
| IndexCache.BuildFilteredEffect | fastq_to_raw_counts.py:49-66 | with the output present, nothing changes. Otherwise a missing source raises `FileNotFound(src)` with nothing changed. Else the output is written with the filtered source, and the step raises `IndexBuildFailed` exactly when the index build fails. No other path is created, removed or changed |
| IndexCache.BuildFilteredIdempotent | fastq_to_raw_counts.py:49-50 | once the output has been written, a second build changes nothing, even when the first index build failed: a failed index build is never retried |
| IndexCache.BuildReferencesIdempotent | fastq_to_raw_counts.py:48-85 | after one successful run of the whole step, running it again changes nothing |
| IndexCache.BuildReferencesCached | fastq_to_raw_counts.py:48-85 | with both filtered FASTAs present the step does nothing |
| IndexCache.BuildReferencesSameFilter | fastq_to_raw_counts.py:53-85 | from scratch, each destination receives `Filter` of its own source, so the two builds differ only in their names. A missing hairpin source raises before anything is written. A failed hairpin index build raises with the hairpin FASTA written and the mature one not. A missing mature source raises after the hairpin FASTA has been written. A failed mature index build raises with both FASTAs written |
| IndexCache.HairpinIndexFailureSticks | fastq_to_raw_counts.py:49-68 | after the hairpin index build fails, the next run skips the hairpin build whatever the tools do, and goes straight to the mature build |
| IndexCache.BuildReferencesResumes | fastq_to_raw_counts.py:49-72 | after a run that raised on a missing `mature.fa`, supplying it and running again writes only the mature FASTA: the hairpin FASTA the failed run left behind is kept, not rebuilt |
| Paths.SampleOutputsSeparate | fastq_to_raw_counts.py:109-141 | different sample names give different SAM, BAM, sorted BAM, report and count paths |
| Paths.SortedBamPrefixesBam | fastq_to_raw_counts.py:130-133 | the sorted BAM's name is the BAM's name prefixed with `sorted_` |
| Paths.StageNamesDistinct | fastq_to_raw_counts.py:41-135 | the names one sample's stages write under the base directory, and the reference files, are pairwise different |
| Paths.RelativeOutputsAreNotReference | fastq_to_raw_counts.py:121-141 | the flagstat report and the count table are never a filtered reference FASTA |
| Pipeline.RunPipeline | fastq_to_raw_counts.py:149-160 | the main loop, which sets `fastq_file`, `sample_name` and `trimmed_fastq_file` and then runs the stages, computes `RunFiles`, stopping at the first failure |
| PipelineProperties.StagesReadEarlierOutputs | fastq_to_raw_counts.py:39-141 | every path a stage reads is either written by an earlier stage of this run, or is a raw read file or reference file that was on disk before it. Leftovers of an earlier run, such as an old SAM or sorted BAM, are never read in place of this run's own. This assumes the raw files and the references are there, and a cached mature FASTA comes with its index |
| PipelineProperties.StageLinks | fastq_to_raw_counts.py:39-139 | the aligner reads the mature index and the trimmed reads cutadapt wrote; flagstat and view read the SAM the aligner wrote; sort reads the BAM view wrote; index and idxstats read the sorted BAM |
| PipelineProperties.RunFilesAgrees | fastq_to_raw_counts.py:49-50 | the whole run depends on what was on disk before it only through the two existence checks of the filtered FASTAs |
| PipelineProperties.CacheDecisionsAgree | fastq_to_raw_counts.py:49-66 | over a disk whose paths are the present ones, the stage-level build and the content-level build both skip exactly when the filtered FASTA exists. When they build, the content build adds exactly the path the filter stage writes. With the filter succeeding and the same verdict on `bowtie2-build`, both raise exactly when the index build fails |
| PipelineProperties.RunFilesFailure | fastq_to_raw_counts.py:149-160 | a run without failure had a `-` in every file name and every checked tool succeeded; a bad file name is an input without `-`; a tool failure is the last stage run, a checked one, and every checked stage before it succeeded |
| PipelineProperties.BadFileNameIsFirst | fastq_to_raw_counts.py:151-153 | a bad file name is the first input without `-`; every file before it was processed, and the run ends with exactly the stages those files ran |
| PipelineProperties.ReferenceBuiltAtMostOnce | fastq_to_raw_counts.py:48-85 | over a whole batch, each reference's filter stage and its index build run at most once |
| PipelineProperties.EarlierSamplesComeFirst | fastq_to_raw_counts.py:151-160 | the stages run for the first n files are a prefix of the stages run for all files, so earlier samples finish first and a later failure undoes nothing |
| PipelineProperties.RawFileNotOverwritten | fastq_to_raw_counts.py:39-135 | the raw read file is none of the names its sample writes under the base directory |
| PipelineProperties.CachedSampleStages | fastq_to_raw_counts.py:155-160 | with both references cached and all tools succeeding, a sample runs exactly trimming, alignment, flagstat, view, sort, index and count, in that order |
| PipelineProperties.SingleFileRun | fastq_to_raw_counts.py:151-160 | the one-file run on `samp1-R1.fastq` is that seven-stage sequence for sample `1` |
| PipelineProperties.ExampleNames | fastq_to_raw_counts.py:41-141 | for that file the paths are `trimmed_samp1-R1.fastq`, `aln_1.sam`, `aln_1.bam`, `sorted_aln_1.bam`, `Samtools_flagstat/1_report.txt` and `Raw_counts/1_raw_count.txt` |
| PipelineProperties.StaleMatureCache | fastq_to_raw_counts.py:68-69 | with a cached mature FASTA but no mature index, the aligner reads a path that is neither present nor written before it |

## Left out

- External tools: cutadapt, bowtie2-build, bowtie2, samtools and `cut` are opaque. Each is a `Stage` with its input and output paths. Their numeric parameters and argument vectors are not modelled, and whether a tool succeeds is a parameter.
- File contents are lists of lines, as Python's file iteration yields them. Reading, joining and re-splitting bytes is not modelled. `Path.is_file` becomes key membership in a map, or in a set of present paths.
- The bowtie2 index files are not in the `IndexCache` file-system map. They appear only as paths that the `Pipeline` index-build stage writes. `IndexCache` records only whether `bowtie2-build` succeeded, through its `indexOk` parameter.
- Pipeline.Checked: `samtools view` and the `idxstats | cut` pipe are treated as never raising. In the source, `subprocess.call` (line 131) and `Popen` (lines 139 and 142) raise `OSError` when the program cannot be started, for instance when `cut` is missing from `PATH`, and that ends the run. The model does not cover that case.
- `samtools index` names its `.bai` output itself. The model's index stage writes no path.
- The flagstat report is written character by character (lines 121-123). Only its path is modelled.
- The `Popen` pipe in `generate_raw_counts` is never awaited. The model treats the count stage as finished when the next stage starts, and ignores its failures.
- Pipeline.CountStage: assumes that `base` and the sample name contain no whitespace, quote or backslash. Line 139 builds the idxstats command as one string and re-splits it with `shlex.split`. With a space in the name, idxstats gets a fragment of the sorted BAM path. With an unbalanced quote, `split` raises `ValueError` and the run ends before the count file is opened. The model reads the whole sorted BAM path and never raises here, so `StagesReadEarlierOutputs`, `StageLinks` and `RunFilesFailure` describe the count stage only for such names.
- Printing and banners. The hard-coded base directory `path` becomes the parameter `base`, and `sys.argv` becomes the list `files`.
- `open(..., "w")` on `Samtools_flagstat/` or `Raw_counts/` fails if the directory is missing. The model assumes both directories exist.
- Once a stage has run, its outputs count as present whether it succeeded or not. Only the cache decisions read this set. They look only at the filtered FASTAs, and a failed filter stops the run.
- PipelineProperties.RawFileNotOverwritten: covers only the names under the base directory. The report and count paths are relative to the working directory, and the model does not relate that directory to `base`.
- Paths.SampleOutputsSeparate: two input files with the same sample name (such as `SCDS1-R1` and `SCDS1-R2`) write the same output paths, and the later one overwrites the earlier. The model does not rule this out.
