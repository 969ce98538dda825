/**
 * The species filter that `make_mature_hairpin_bowtie2_index` runs over a reference FASTA:
 * a two-state line machine driven by the flag `hsa`. A header starting with `>hsa` sets the flag
 * and is kept as it is; any other header clears it; a sequence line is kept, with every `U`
 * rewritten to `T`, only while the flag is set. Lines are the strings Python's file iteration
 * yields.
 */
module ReferenceFilter {

  /** Python's `str.startswith`. */
  predicate StartsWith(line: string, prefix: string)
  {
    |prefix| <= |line| && line[..|prefix|] == prefix
  }

  predicate IsHeader(line: string)
  {
    StartsWith(line, ">")
  }

  predicate IsHsaHeader(line: string)
  {
    StartsWith(line, ">hsa")
  }

  lemma HsaHeaderIsHeader(line: string)
    ensures IsHsaHeader(line) ==> IsHeader(line)
  {
    if IsHsaHeader(line) {
      assert line[..1] == line[..4][..1];
    }
  }

  /** `line.replace("U", "T")`: the RNA base `U` becomes the DNA base `T`; nothing else moves. */
  function ReplaceUWithT(line: string): (r: string)
    ensures |r| == |line|
    ensures forall i :: 0 <= i < |line| ==> r[i] == (if line[i] == 'U' then 'T' else line[i])
    ensures 'U' !in r
  {
    if line == [] then []
    else [if line[0] == 'U' then 'T' else line[0]] + ReplaceUWithT(line[1..])
  }

  /** Rewriting twice is rewriting once, and the rewrite never makes or unmakes a header. */
  lemma ReplaceUWithTStable(line: string)
    ensures ReplaceUWithT(ReplaceUWithT(line)) == ReplaceUWithT(line)
    ensures IsHeader(ReplaceUWithT(line)) <==> IsHeader(line)
    ensures !IsHsaHeader(ReplaceUWithT(line)) || IsHsaHeader(line)
  {
    var r := ReplaceUWithT(line);
    if |line| > 0 {
      assert r[..1] == [r[0]];
      assert line[..1] == [line[0]];
    }
    if IsHsaHeader(r) {
      assert r[..4] == line[..4] by {
        forall i | 0 <= i < 4 ensures r[i] == line[i] {
          assert r[..4][i] == ">hsa"[i];
        }
      }
    }
  }

  /** The loop's state: the flag `hsa` and the list `res` of lines to write. */
  datatype FilterState = FilterState(hsa: bool, res: seq<string>)

  /** Both loops start with `res = []` and `hsa = False`. */
  const Start := FilterState(false, [])

  /** One iteration of the loop body for one input line. */
  function Step(st: FilterState, line: string): FilterState
  {
    if IsHsaHeader(line) then FilterState(true, st.res + [line])
    else if IsHeader(line) then FilterState(false, st.res)
    else if st.hsa then FilterState(true, st.res + [ReplaceUWithT(line)])
    else st
  }

  /** The state after the loop has consumed `lines` in order. */
  function Run(lines: seq<string>): FilterState
    decreases |lines|
  {
    if lines == [] then Start
    else Step(Run(lines[..|lines| - 1]), lines[|lines| - 1])
  }

  /** The lines the filter writes out. */
  function Filter(lines: seq<string>): seq<string>
  {
    Run(lines).res
  }

  /** The loop of `make_mature_hairpin_bowtie2_index`, appending to `res` as it reads each line. */
  method FilterHsa(lines: seq<string>) returns (res: seq<string>)
    ensures res == Filter(lines)
  {
    res := [];
    var hsa := false;
    for i := 0 to |lines|
      invariant FilterState(hsa, res) == Run(lines[..i])
    {
      var line := lines[i];
      if IsHsaHeader(line) {
        hsa := true;
        res := res + [line];
      } else if IsHeader(line) {
        hsa := false;
      } else if hsa {
        res := res + [ReplaceUWithT(line)];
      }
      assert lines[..i + 1][..i] == lines[..i];
    }
    assert lines[..|lines|] == lines;
  }

  // ----- An independent description of what the filter keeps -----

  /** The most recent header strictly before index `i` exists and starts with `>hsa`. */
  ghost predicate UnderHsaHeader(lines: seq<string>, i: nat)
    requires i <= |lines|
  {
    exists j :: 0 <= j < i && IsHsaHeader(lines[j]) && forall k :: j < k < i ==> !IsHeader(lines[k])
  }

  /** Line `i` is written out: it is an `>hsa` header, or a sequence line under one. */
  ghost predicate Kept(lines: seq<string>, i: nat)
    requires i < |lines|
  {
    IsHsaHeader(lines[i]) || (!IsHeader(lines[i]) && UnderHsaHeader(lines, i))
  }

  /** What a kept line becomes: headers verbatim, sequence lines rewritten. */
  function Emitted(line: string): string
  {
    if IsHeader(line) then line else ReplaceUWithT(line)
  }

  /**
   * `out` is the order-preserving selection, through the increasing index list `idx`, of exactly
   * the kept lines of `lines`, each as `Emitted` makes it.
   */
  ghost predicate SelectsExactly(lines: seq<string>, out: seq<string>, idx: seq<nat>)
  {
    |idx| == |out|
    && (forall k :: 0 <= k < |idx| ==> idx[k] < |lines| && out[k] == Emitted(lines[idx[k]]))
    && (forall k, l :: 0 <= k < l < |idx| ==> idx[k] < idx[l])
    && (forall i :: 0 <= i < |lines| ==> (Kept(lines, i) <==> i in idx))
  }

  lemma UnderHsaHeaderPrefix(lines: seq<string>, n: nat, i: nat)
    requires i <= n <= |lines|
    ensures UnderHsaHeader(lines, i) <==> UnderHsaHeader(lines[..n], i)
  {
    var p := lines[..n];
    if UnderHsaHeader(lines, i) {
      var j :| 0 <= j < i && IsHsaHeader(lines[j]) && forall k :: j < k < i ==> !IsHeader(lines[k]);
      assert p[j] == lines[j];
      assert forall k :: j < k < i ==> !IsHeader(p[k]) by {
        forall k | j < k < i ensures !IsHeader(p[k]) { assert p[k] == lines[k]; }
      }
    }
    if UnderHsaHeader(p, i) {
      var j :| 0 <= j < i && IsHsaHeader(p[j]) && forall k :: j < k < i ==> !IsHeader(p[k]);
      assert p[j] == lines[j];
      assert forall k :: j < k < i ==> !IsHeader(lines[k]) by {
        forall k | j < k < i ensures !IsHeader(lines[k]) { assert p[k] == lines[k]; }
      }
    }
  }

  /** A sequence line does not change which header governs the lines after it. */
  lemma UnderHsaHeaderSkipsSequenceLine(lines: seq<string>, i: nat)
    requires i < |lines| && !IsHeader(lines[i])
    ensures UnderHsaHeader(lines, i + 1) <==> UnderHsaHeader(lines, i)
  {
    if UnderHsaHeader(lines, i + 1) {
      var j :| 0 <= j < i + 1 && IsHsaHeader(lines[j]) && forall k :: j < k < i + 1 ==> !IsHeader(lines[k]);
      HsaHeaderIsHeader(lines[j]);
      assert j < i;
    }
    if UnderHsaHeader(lines, i) {
      var j :| 0 <= j < i && IsHsaHeader(lines[j]) && forall k :: j < k < i ==> !IsHeader(lines[k]);
      assert forall k :: j < k < i + 1 ==> !IsHeader(lines[k]);
    }
  }

  /** After any prefix the flag `hsa` is set exactly when the most recent header is an `>hsa` one. */
  lemma {:induction false} RunTracksHeader(lines: seq<string>)
    ensures Run(lines).hsa <==> UnderHsaHeader(lines, |lines|)
    decreases |lines|
  {
    if lines != [] {
      var n := |lines|;
      var p := lines[..n - 1];
      var x := lines[n - 1];
      RunTracksHeader(p);
      UnderHsaHeaderPrefix(lines, n - 1, n - 1);
      HsaHeaderIsHeader(x);
      if IsHsaHeader(x) {
      } else if IsHeader(x) {
        forall j | 0 <= j < n && IsHsaHeader(lines[j])
          ensures j < n - 1 && IsHeader(lines[n - 1])
        {
        }
      } else {
        UnderHsaHeaderSkipsSequenceLine(lines, n - 1);
      }
    }
  }

  /** The indices the filter keeps, in increasing order. */
  ghost function KeptIndices(lines: seq<string>): seq<nat>
    decreases |lines|
  {
    if lines == [] then []
    else KeptIndices(lines[..|lines| - 1]) + (if Kept(lines, |lines| - 1) then [|lines| - 1] else [])
  }

  /** Whether a line is kept depends only on the lines up to it. */
  lemma KeptPrefix(lines: seq<string>, n: nat, i: nat)
    requires i < n <= |lines|
    ensures Kept(lines, i) <==> Kept(lines[..n], i)
  {
    UnderHsaHeaderPrefix(lines, n, i);
    assert lines[..n][i] == lines[i];
  }

  /** The loop appends the emitted line exactly when the last line is kept. */
  lemma FilterLast(lines: seq<string>)
    requires lines != []
    ensures var n := |lines|;
      Filter(lines) == Filter(lines[..n - 1]) + (if Kept(lines, n - 1) then [Emitted(lines[n - 1])] else [])
  {
    var n := |lines|;
    var p := lines[..n - 1];
    RunTracksHeader(p);
    UnderHsaHeaderPrefix(lines, n - 1, n - 1);
    HsaHeaderIsHeader(lines[n - 1]);
  }

  lemma {:induction false} KeptIndicesSelect(lines: seq<string>)
    ensures SelectsExactly(lines, Filter(lines), KeptIndices(lines))
    decreases |lines|
  {
    if lines != [] {
      var n := |lines|;
      var p := lines[..n - 1];
      var idx0 := KeptIndices(p);
      var idx := KeptIndices(lines);
      var out0 := Filter(p);
      var out := Filter(lines);
      KeptIndicesSelect(p);
      FilterLast(lines);
      var tail := if Kept(lines, n - 1) then [n - 1] else [];
      assert idx == idx0 + tail;
      assert |idx| == |out|;
      forall k | 0 <= k < |idx|
        ensures idx[k] < n && out[k] == Emitted(lines[idx[k]])
      {
        if k < |idx0| {
          assert idx[k] == idx0[k] && out[k] == out0[k];
          assert p[idx0[k]] == lines[idx0[k]];
        }
      }
      forall i | 0 <= i < n
        ensures Kept(lines, i) <==> i in idx
      {
        if i < n - 1 {
          KeptPrefix(lines, n - 1, i);
          assert i in idx0 <==> i in idx;
        } else {
          assert n - 1 !in idx0;
        }
      }
    }
  }

  // ----- The properties the filter promises -----

  /**
   * The output is an order-preserving subsequence of the input: exactly the `>hsa` headers,
   * verbatim, and the sequence lines whose most recent header is an `>hsa` one, rewritten.
   * In particular sequence lines before the first header are dropped.
   */
  lemma FilterSelectsKeptLines(lines: seq<string>)
    ensures exists idx :: SelectsExactly(lines, Filter(lines), idx)
  {
    KeptIndicesSelect(lines);
  }

  /** The output has no more lines than the input. */
  lemma {:induction false} FilterLength(lines: seq<string>)
    ensures |Filter(lines)| <= |lines|
    decreases |lines|
  {
    if lines != [] {
      FilterLength(lines[..|lines| - 1]);
    }
  }

  /**
   * A header is in the output exactly when it is an input header starting with `>hsa`:
   * every `>hsa` header survives, verbatim, and no other header does.
   */
  lemma FilterHeaders(lines: seq<string>)
    ensures forall h :: IsHeader(h) ==> (h in Filter(lines) <==> h in lines && IsHsaHeader(h))
  {
    var out := Filter(lines);
    var idx := KeptIndices(lines);
    KeptIndicesSelect(lines);
    forall h | IsHeader(h)
      ensures h in out <==> h in lines && IsHsaHeader(h)
    {
      if h in out {
        var k :| 0 <= k < |out| && out[k] == h;
        var i := idx[k];
        assert i in idx;
        ReplaceUWithTStable(lines[i]);
        assert IsHeader(lines[i]) && lines[i] == h;
      }
      if h in lines && IsHsaHeader(h) {
        var i :| 0 <= i < |lines| && lines[i] == h;
        assert Kept(lines, i);
        var k :| 0 <= k < |idx| && idx[k] == i;
        assert out[k] == h;
      }
    }
  }

  /** Every sequence line of the output is DNA: it holds no `U`. */
  lemma FilterSequenceLinesHaveNoU(lines: seq<string>)
    ensures forall line :: line in Filter(lines) && !IsHeader(line) ==> 'U' !in line
  {
    var out := Filter(lines);
    var idx := KeptIndices(lines);
    KeptIndicesSelect(lines);
    forall line | line in out && !IsHeader(line)
      ensures 'U' !in line
    {
      var k :| 0 <= k < |out| && out[k] == line;
      assert !IsHeader(lines[idx[k]]);
    }
  }

  lemma {:induction false} FilterIdempotentStep(lines: seq<string>)
    ensures Run(Filter(lines)).res == Filter(lines)
    ensures Run(lines).hsa ==> Run(Filter(lines)).hsa
    decreases |lines|
  {
    if lines != [] {
      var n := |lines|;
      var p := lines[..n - 1];
      var x := lines[n - 1];
      var q := Filter(p);
      FilterIdempotentStep(p);
      if IsHsaHeader(x) {
        assert (q + [x])[..|q|] == q;
      } else if IsHeader(x) {
      } else if Run(p).hsa {
        var y := ReplaceUWithT(x);
        ReplaceUWithTStable(x);
        assert (q + [y])[..|q|] == q;
      }
    }
  }

  /** Filtering the filter's own output gives it back unchanged. */
  lemma FilterIdempotent(lines: seq<string>)
    ensures Filter(Filter(lines)) == Filter(lines)
  {
    FilterIdempotentStep(lines);
  }
}
