/** The sample identifier derived from a raw read file name (`extract_sample_name`). */
module SampleName {
  import opened Wrappers

  /** What `str.index` raises when the separator is missing (a `ValueError`). */
  datatype NameError = MissingDash(file: string)

  /** `s.index(c)`: the position of the first `c` in `s`, or None where Python raises. */
  function FirstIndexOf(s: string, c: char): (r: Option<nat>)
    ensures r.None? <==> c !in s
    ensures r.Some? ==> r.value < |s| && s[r.value] == c && c !in s[..r.value]
  {
    if |s| == 0 then None
    else if s[0] == c then Some(0)
    else match FirstIndexOf(s[1..], c)
      case None => None
      case Some(k) =>
        assert s[..k + 1] == [s[0]] + s[1..][..k];
        Some(k + 1)
  }

  /** Python's slice `s[lo:hi]` for non-negative bounds: clamped to the string, empty when `hi <= lo`. */
  function Slice(s: string, lo: nat, hi: nat): string
  {
    if hi <= lo || |s| <= lo then []
    else if |s| < hi then s[lo..]
    else s[lo..hi]
  }

  /**
   * `fastq_file[4:fastq_file.index("-")]`. A name without `-` is an error; otherwise the name
   * is the text from index 4 up to the first `-`, which is empty when that `-` is at index 4 or
   * earlier. The contract determines the result completely.
   */
  function ExtractSampleName(file: string): (r: Result<string, NameError>)
    ensures r.Err? <==> '-' !in file
    ensures r.Err? ==> r.error == MissingDash(file)
    ensures r.Ok? ==> '-' !in r.value
    ensures r.Ok? && r.value != [] ==>
      4 + |r.value| < |file| && file[4..4 + |r.value|] == r.value &&
      file[4 + |r.value|] == '-' && '-' !in file[..4]
    ensures r.Ok? && r.value == [] ==> exists i :: 0 <= i <= 4 && i < |file| && file[i] == '-'
  {
    match FirstIndexOf(file, '-')
    case None => Err(MissingDash(file))
    case Some(k) =>
      var name := Slice(file, 4, k);
      assert k <= 4 ==> name == [];
      assert k > 4 ==> name == file[4..k] && file[..k] == file[..4] + name;
      Ok(name)
  }

  /**
   * A file named in the convention `XXXX<name>-<rest>`, with four leading characters and no `-`
   * before the separator, yields exactly `<name>`.
   */
  lemma ConventionalFileName(lead: string, name: string, rest: string)
    requires |lead| == 4 && '-' !in lead && '-' !in name
    ensures ExtractSampleName(lead + name + "-" + rest) == Ok(name)
  {
    var file := lead + name + "-" + rest;
    assert file[..4 + |name|] == lead + name;
    assert file[4 + |name|] == '-';
    assert file[4..4 + |name|] == name;
  }

  /** The slice skips the four characters `samp` of `samp1-R1.fastq`, so its sample is `1`. */
  lemma SampOneExample()
    ensures ExtractSampleName("samp1-R1.fastq") == Ok("1")
  {
    assert "samp" + "1" + "-" + "R1.fastq" == "samp1-R1.fastq";
    ConventionalFileName("samp", "1", "R1.fastq");
  }
}
