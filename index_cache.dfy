/**
 * The existence-checked build of the two filtered reference FASTAs in
 * `make_mature_hairpin_bowtie2_index`, over an abstract file system that maps a path to the
 * lines of the file stored there. Whether `bowtie2-build` succeeds on a FASTA is the parameter
 * `indexOk`; the index files it writes are not in the map.
 */
module IndexCache {
  import opened Wrappers
  import opened ReferenceFilter
  import Paths

  type FileSystem = map<string, seq<string>>

  /**
   * What raises in the step: `open` of a path that holds no file, or `check_output` of a
   * `bowtie2-build` that fails on the FASTA just written.
   */
  datatype BuildError = FileNotFound(path: string) | IndexBuildFailed(fasta: string)

  /**
   * The file system after a step, with the error that ended it, if any. A step that raises
   * keeps what it wrote before the raise.
   */
  datatype Built = Built(fs: FileSystem, error: Option<BuildError>)

  /**
   * One guarded build: nothing happens when `dst` already exists. Otherwise `src` is read
   * (raising, before anything is written, if it is absent), its filtered lines are written to
   * `dst`, and `bowtie2-build` indexes `dst`, raising if it fails; `dst` stays written.
   */
  function BuildFiltered(fs: FileSystem, src: string, dst: string, indexOk: string -> bool): Built
  {
    if dst in fs then Built(fs, None)
    else if src !in fs then Built(fs, Some(FileNotFound(src)))
    else Built(fs[dst := Filter(fs[src])], if indexOk(dst) then None else Some(IndexBuildFailed(dst)))
  }

  /**
   * The hairpin build, then the mature build; an error in the first (a missing source or a
   * failed index build) stops the second, and every error leaves what was written before it.
   */
  function BuildReferences(fs: FileSystem, base: string, indexOk: string -> bool): Built
  {
    var b1 := BuildFiltered(fs, base + Paths.HairpinSource, base + Paths.HairpinFasta, indexOk);
    if b1.error.Some? then b1
    else BuildFiltered(b1.fs, base + Paths.MatureSource, base + Paths.MatureFasta, indexOk)
  }

  /**
   * Lines 49-66 (and, with the other names, 68-85): check, read, filter, write, index. The
   * `bowtie2-build` call is `indexOk`.
   */
  method MakeFilteredFasta(fs: FileSystem, src: string, dst: string, indexOk: string -> bool)
    returns (r: Built)
    ensures r == BuildFiltered(fs, src, dst, indexOk)
  {
    if dst in fs {
      return Built(fs, None);
    }
    if src !in fs {
      return Built(fs, Some(FileNotFound(src)));
    }
    var res := FilterHsa(fs[src]);
    var written := fs[dst := res];
    if !indexOk(dst) {
      return Built(written, Some(IndexBuildFailed(dst)));
    }
    r := Built(written, None);
  }

  /** `make_mature_hairpin_bowtie2_index`: the same guarded build, once per reference. */
  method MakeMatureHairpinIndex(fs: FileSystem, base: string, indexOk: string -> bool) returns (r: Built)
    ensures r == BuildReferences(fs, base, indexOk)
  {
    r := MakeFilteredFasta(fs, base + Paths.HairpinSource, base + Paths.HairpinFasta, indexOk);
    if r.error.None? {
      r := MakeFilteredFasta(r.fs, base + Paths.MatureSource, base + Paths.MatureFasta, indexOk);
    }
  }

  /**
   * What one guarded build does. When `dst` exists it changes nothing and succeeds. Otherwise
   * a missing `src` raises `FileNotFound(src)` with nothing changed; else `dst` is written with
   * the filtered `src`, and the build raises `IndexBuildFailed(dst)` exactly when the index
   * build fails. No other path is created, removed or changed.
   */
  lemma BuildFilteredEffect(fs: FileSystem, src: string, dst: string, indexOk: string -> bool)
    ensures var r := BuildFiltered(fs, src, dst, indexOk);
      r.error.Some? <==> dst !in fs && (src !in fs || !indexOk(dst))
    ensures dst !in fs && src !in fs ==>
      BuildFiltered(fs, src, dst, indexOk) == Built(fs, Some(FileNotFound(src)))
    ensures dst !in fs && src in fs && !indexOk(dst) ==>
      BuildFiltered(fs, src, dst, indexOk).error == Some(IndexBuildFailed(dst))
    ensures var r := BuildFiltered(fs, src, dst, indexOk);
      (dst in fs || src in fs) ==>
        dst in r.fs &&
        r.fs[dst] == (if dst in fs then fs[dst] else Filter(fs[src])) &&
        forall p :: p != dst ==> (p in r.fs <==> p in fs) && (p in fs ==> r.fs[p] == fs[p])
  {
  }

  /**
   * Once `dst` has been written the build changes nothing, whether the index build succeeded
   * or not: a failed `bowtie2-build` is never retried, because only `dst` is checked.
   */
  lemma BuildFilteredIdempotent(fs: FileSystem, src: string, dst: string, indexOk: string -> bool,
                                indexOk': string -> bool)
    requires BuildFiltered(fs, src, dst, indexOk).error != Some(FileNotFound(src))
    ensures var fs1 := BuildFiltered(fs, src, dst, indexOk).fs;
      BuildFiltered(fs1, src, dst, indexOk') == Built(fs1, None)
  {
  }

  /** Running the whole step again after it succeeded leaves the file system as it is. */
  lemma BuildReferencesIdempotent(fs: FileSystem, base: string, indexOk: string -> bool)
    requires BuildReferences(fs, base, indexOk).error.None?
    ensures var fs2 := BuildReferences(fs, base, indexOk).fs;
      BuildReferences(fs2, base, indexOk) == Built(fs2, None)
  {
    var fs1 := BuildFiltered(fs, base + Paths.HairpinSource, base + Paths.HairpinFasta, indexOk).fs;
    var fs2 := BuildFiltered(fs1, base + Paths.MatureSource, base + Paths.MatureFasta, indexOk).fs;
    assert base + Paths.HairpinFasta in fs1;
    assert base + Paths.HairpinFasta in fs2;
  }

  /** When both filtered FASTAs already exist, the step does nothing at all. */
  lemma BuildReferencesCached(fs: FileSystem, base: string, indexOk: string -> bool)
    requires base + Paths.HairpinFasta in fs && base + Paths.MatureFasta in fs
    ensures BuildReferences(fs, base, indexOk) == Built(fs, None)
  {
  }

  /**
   * The hairpin and mature builds run the same filter and differ only in their file names.
   * From scratch: a missing hairpin source raises before anything is written; a failed hairpin
   * index build raises with the hairpin FASTA written and the mature one not; a missing mature
   * source or a failed mature index build raises after the hairpin FASTA has been written; and
   * otherwise each destination receives the filtered lines of its own source.
   */
  lemma BuildReferencesSameFilter(fs: FileSystem, base: string, indexOk: string -> bool)
    requires base + Paths.HairpinFasta !in fs && base + Paths.MatureFasta !in fs
    ensures base + Paths.HairpinSource !in fs ==>
      BuildReferences(fs, base, indexOk) == Built(fs, Some(FileNotFound(base + Paths.HairpinSource)))
    ensures base + Paths.HairpinSource in fs && !indexOk(base + Paths.HairpinFasta) ==>
      var hairpin := fs[base + Paths.HairpinFasta := Filter(fs[base + Paths.HairpinSource])];
      BuildReferences(fs, base, indexOk) == Built(hairpin, Some(IndexBuildFailed(base + Paths.HairpinFasta))) &&
      base + Paths.MatureFasta !in hairpin
    ensures base + Paths.HairpinSource in fs && indexOk(base + Paths.HairpinFasta) && base + Paths.MatureSource !in fs ==>
      var hairpin := fs[base + Paths.HairpinFasta := Filter(fs[base + Paths.HairpinSource])];
      BuildReferences(fs, base, indexOk) == Built(hairpin, Some(FileNotFound(base + Paths.MatureSource)))
    ensures base + Paths.HairpinSource in fs && indexOk(base + Paths.HairpinFasta) && base + Paths.MatureSource in fs ==>
      var both := fs[base + Paths.HairpinFasta := Filter(fs[base + Paths.HairpinSource])]
                    [base + Paths.MatureFasta := Filter(fs[base + Paths.MatureSource])];
      BuildReferences(fs, base, indexOk) ==
        Built(both, if indexOk(base + Paths.MatureFasta) then None
                    else Some(IndexBuildFailed(base + Paths.MatureFasta)))
  {
    Paths.UnderBaseInjective(base, Paths.HairpinFasta, Paths.MatureSource);
    Paths.UnderBaseInjective(base, Paths.HairpinFasta, Paths.MatureFasta);
  }

  /**
   * After a run that raised on a missing `mature.fa`, supplying that file and running the step
   * again builds only the mature FASTA: the hairpin FASTA left by the failed run is kept as it
   * is, whatever the hairpin source now holds.
   */
  lemma BuildReferencesResumes(fs: FileSystem, base: string, mature: seq<string>, indexOk: string -> bool)
    requires BuildReferences(fs, base, indexOk).error == Some(FileNotFound(base + Paths.MatureSource))
    ensures var fs1 := BuildReferences(fs, base, indexOk).fs[base + Paths.MatureSource := mature];
      base + Paths.HairpinFasta in fs1 &&
      BuildReferences(fs1, base, indexOk) ==
        Built(fs1[base + Paths.MatureFasta := Filter(mature)],
              if indexOk(base + Paths.MatureFasta) then None else Some(IndexBuildFailed(base + Paths.MatureFasta)))
  {
    var b1 := BuildFiltered(fs, base + Paths.HairpinSource, base + Paths.HairpinFasta, indexOk);
    assert b1.error.None?;
    assert base + Paths.HairpinFasta in b1.fs;
    assert base + Paths.MatureFasta !in b1.fs;
    Paths.UnderBaseInjective(base, Paths.HairpinFasta, Paths.MatureSource);
    Paths.UnderBaseInjective(base, Paths.MatureFasta, Paths.MatureSource);
  }

  /**
   * A failed hairpin index build is never repaired: the next run, whatever the tools do then,
   * skips the hairpin build because its FASTA exists, and goes straight to the mature build.
   */
  lemma HairpinIndexFailureSticks(fs: FileSystem, base: string, indexOk: string -> bool, indexOk': string -> bool)
    requires BuildReferences(fs, base, indexOk).error == Some(IndexBuildFailed(base + Paths.HairpinFasta))
    ensures var fs1 := BuildReferences(fs, base, indexOk).fs;
      base + Paths.HairpinFasta in fs1 &&
      BuildReferences(fs1, base, indexOk') ==
        BuildFiltered(fs1, base + Paths.MatureSource, base + Paths.MatureFasta, indexOk')
  {
    var b1 := BuildFiltered(fs, base + Paths.HairpinSource, base + Paths.HairpinFasta, indexOk);
    assert b1.error.Some?;
  }
}
