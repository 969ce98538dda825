/**
 * The naming conventions by which each stage of the script finds the files of the one before.
 * Names under the base directory are given without it; the QC report and the count table are
 * written relative to the working directory.
 */
module Paths {

  const HairpinSource := "hairpin.fa"
  const MatureSource := "mature.fa"
  const HairpinFasta := "hsa_miRNA_hairpin.fa"
  const HairpinIndex := "hsa_miRNA_hairpin_index"
  const MatureFasta := "hsa_miRNA_mature.fa"
  const MatureIndex := "hsa_miRNA_mature_index"

  /** The index the aligner uses (`align_index`). */
  const AlignIndex := "hsa_miRNA_mature_index"

  function TrimmedName(file: string): string
  {
    "trimmed_" + file
  }

  function SamName(sample: string): string
  {
    "aln_" + sample + ".sam"
  }

  function BamName(sample: string): string
  {
    "aln_" + sample + ".bam"
  }

  function SortedBamName(sample: string): string
  {
    "sorted_" + "aln_" + sample + ".bam"
  }

  function ReportPath(sample: string): string
  {
    "Samtools_flagstat/" + sample + "_report.txt"
  }

  function CountPath(sample: string): string
  {
    "Raw_counts/" + sample + "_raw_count.txt"
  }

  /** Placing names under one base directory keeps different names different. */
  lemma UnderBaseInjective(base: string, x: string, y: string)
    ensures base + x == base + y <==> x == y
  {
    if base + x == base + y {
      assert x == (base + x)[|base|..];
      assert y == (base + y)[|base|..];
    }
  }

  /** The text between a fixed prefix and a fixed suffix is recovered from the whole. */
  lemma FramedInjective(pre: string, a: string, b: string, post: string)
    requires pre + a + post == pre + b + post
    ensures a == b
  {
    var w := pre + a + post;
    assert a == w[|pre|..|w| - |post|];
    assert b == w[|pre|..|w| - |post|];
  }

  /** Different samples get different output names at every stage, so they never overwrite each other. */
  lemma SampleOutputsSeparate(s1: string, s2: string)
    requires s1 != s2
    ensures SamName(s1) != SamName(s2) && BamName(s1) != BamName(s2)
    ensures SortedBamName(s1) != SortedBamName(s2)
    ensures ReportPath(s1) != ReportPath(s2) && CountPath(s1) != CountPath(s2)
  {
    if SamName(s1) == SamName(s2) { FramedInjective("aln_", s1, s2, ".sam"); }
    if BamName(s1) == BamName(s2) { FramedInjective("aln_", s1, s2, ".bam"); }
    if SortedBamName(s1) == SortedBamName(s2) {
      SortedBamPrefixesBam(s1);
      SortedBamPrefixesBam(s2);
      UnderBaseInjective("sorted_", BamName(s1), BamName(s2));
      FramedInjective("aln_", s1, s2, ".bam");
    }
    if ReportPath(s1) == ReportPath(s2) { FramedInjective("Samtools_flagstat/", s1, s2, "_report.txt"); }
    if CountPath(s1) == CountPath(s2) { FramedInjective("Raw_counts/", s1, s2, "_raw_count.txt"); }
  }

  /** The sorted BAM is the BAM's name with `sorted_` in front. */
  lemma SortedBamPrefixesBam(sample: string)
    ensures SortedBamName(sample) == "sorted_" + BamName(sample)
  {
  }

  /**
   * The names one sample's stages write under the base directory are pairwise different, and
   * none is the filtered reference the cache looks for.
   */
  lemma StageNamesDistinct(file: string, sample: string)
    ensures var names := [TrimmedName(file), SamName(sample), BamName(sample), SortedBamName(sample),
                          HairpinFasta, HairpinIndex, MatureFasta, MatureIndex];
      forall i, j :: 0 <= i < j < |names| ==> names[i] != names[j]
  {
    var names := [TrimmedName(file), SamName(sample), BamName(sample), SortedBamName(sample),
                  HairpinFasta, HairpinIndex, MatureFasta, MatureIndex];
    assert names[0][0] == 't' && names[1][0] == 'a' && names[2][0] == 'a' && names[3][0] == 's';
    assert names[4][0] == 'h' && names[5][0] == 'h' && names[6][0] == 'h' && names[7][0] == 'h';
    var n := |sample| + 5;
    assert names[1][n] == 's' && names[2][n] == 'b';
    assert names[4][4] == 'm' && names[6][4] == 'm';
  }

  /** The QC report and the count table can never be taken for the mature reference FASTA. */
  lemma RelativeOutputsAreNotReference(base: string, sample: string)
    ensures ReportPath(sample) != base + MatureFasta && CountPath(sample) != base + MatureFasta
    ensures ReportPath(sample) != base + HairpinFasta && CountPath(sample) != base + HairpinFasta
  {
    var r := ReportPath(sample);
    var c := CountPath(sample);
    assert r[|r| - 1] == 't' && c[|c| - 1] == 't';
    var m := base + MatureFasta;
    var h := base + HairpinFasta;
    assert m[|m| - 1] == 'a' && h[|h| - 1] == 'a';
  }
}
