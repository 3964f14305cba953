/**
  `scripts/extract_beinsports.py`: copies from a playlist every `#EXTINF`
  line that mentions beIN, together with the line after it, each stripped
  and written with a line feed. The input file is the sequence of lines
  `readlines()` returns and the output file is the sequence of strings
  written to it.
*/
module ExtractBein {
  import opened Text

  /** The `#EXTINF` test and the case-insensitive `bein` / `beinsports`
      test of the script, on the stripped line. */
  predicate Matched(line: string) {
    var s := Strip(line);
    StartsWith(s, "#EXTINF") && (Contains(Lower(s), "bein") || Contains(Lower(s), "beinsports"))
  }

  /** The `beinsports` disjunct adds nothing: a text containing `beinsports`
      contains `bein`. */
  lemma BeinsportsImpliesBein(s: string)
    requires Contains(s, "beinsports")
    ensures Contains(s, "bein")
  {
    ContainsPrefix(s, "beinsports", "bein");
  }

  lemma MatchedIffBein(line: string)
    ensures Matched(line) <==> StartsWith(Strip(line), "#EXTINF") && Contains(Lower(Strip(line)), "bein")
  {
    if Contains(Lower(Strip(line)), "beinsports") {
      BeinsportsImpliesBein(Lower(Strip(line)));
    }
  }

  /** The stripped lines the loop writes from index `i` on: a matched
      header and the line after it, unexamined, when there is one. */
  function Extract(lines: seq<string>, i: nat): seq<string>
    decreases |lines| - i
  {
    if i >= |lines| then []
    else if Matched(lines[i]) then
      [Strip(lines[i])] + (if i + 1 < |lines| then [Strip(lines[i + 1])] else []) + Extract(lines, i + 2)
    else Extract(lines, i + 1)
  }

  /** The strings written for the output lines: each followed by a line feed. */
  function Written(out: seq<string>): (r: seq<string>)
    ensures |r| == |out| && forall k :: 0 <= k < |out| ==> r[k] == out[k] + "\n"
  {
    seq(|out|, k requires 0 <= k < |out| => out[k] + "\n")
  }

  lemma WrittenSnoc(out: seq<string>, x: string)
    ensures Written(out + [x]) == Written(out) + [x + "\n"]
  {
    assert Written(out + [x])[|out|] == x + "\n";
  }

  /** The top-level loop of the script. */
  method ExtractLines(lines: seq<string>) returns (written: seq<string>)
    ensures written == Written(Extract(lines, 0))
  {
    ghost var whole := Extract(lines, 0);
    ghost var out: seq<string> := [];
    written := [];
    var i := 0;
    while i < |lines|
      invariant 0 <= i <= |lines| + 1
      invariant out + Extract(lines, i) == whole
      invariant written == Written(out)
    {
      ghost var before := out;
      var line := Strip(lines[i]);
      var hit := false;
      if StartsWith(line, "#EXTINF") {
        var low := Lower(line);
        if Contains(low, "bein") || Contains(low, "beinsports") {
          hit := true;
          ghost var emit := [line] + (if i + 1 < |lines| then [Strip(lines[i + 1])] else []);
          assert Extract(lines, i) == emit + Extract(lines, i + 2);
          WrittenSnoc(out, line);
          written := written + [line + "\n"];
          out := out + [line];
          if i + 1 < |lines| {
            WrittenSnoc(out, Strip(lines[i + 1]));
            written := written + [Strip(lines[i + 1]) + "\n"];
            out := out + [Strip(lines[i + 1])];
          }
          assert out == before + emit;
          ConcatAssoc(before, emit, Extract(lines, i + 2));
          i := i + 1;
        }
      }
      if !hit {
        assert !Matched(lines[i]);
        assert Extract(lines, i) == Extract(lines, i + 1);
      }
      i := i + 1;
    }
    assert out + [] == out;
  }

  // ---------------------------------------------------------------------
  // Properties

  /** Every written line is stripped and ends in its one line feed. */
  lemma WrittenStripped(lines: seq<string>, k: nat)
    requires k < |Written(Extract(lines, 0))|
    ensures var w := Written(Extract(lines, 0))[k];
      |w| >= 1 && w[|w| - 1] == '\n' && Strip(w[..|w| - 1]) == w[..|w| - 1]
  {
    var out := Extract(lines, 0);
    ExtractIsSubsequence(lines, 0);
    StripIdempotent(lines[Sources(lines, 0)[k]]);
    var w := out[k] + "\n";
    assert w[..|w| - 1] == out[k];
  }

  /** The input indices the output lines come from, from index `i` on. */
  function Sources(lines: seq<string>, i: nat): seq<nat>
    decreases |lines| - i
  {
    if i >= |lines| then []
    else if Matched(lines[i]) then
      [i] + (if i + 1 < |lines| then [i + 1] else []) + Sources(lines, i + 2)
    else Sources(lines, i + 1)
  }

  /** The output is a subsequence of the stripped input lines: output line
      `k` is input line `Sources(lines, i)[k]` stripped, and these indices
      increase strictly and stay at or after `i`. */
  lemma {:induction false} ExtractIsSubsequence(lines: seq<string>, i: nat)
    ensures var src := Sources(lines, i);
      && |src| == |Extract(lines, i)|
      && (forall k :: 0 <= k < |src| ==> i <= src[k] < |lines| && Extract(lines, i)[k] == Strip(lines[src[k]]))
      && (forall k, m :: 0 <= k < m < |src| ==> src[k] < src[m])
    decreases |lines| - i
  {
    if i < |lines| {
      if Matched(lines[i]) {
        ExtractIsSubsequence(lines, i + 2);
      } else {
        ExtractIsSubsequence(lines, i + 1);
      }
    }
  }

  /** The matched headers the loop visits from index `i` on. */
  function Headers(lines: seq<string>, i: nat): nat
    decreases |lines| - i
  {
    if i >= |lines| then 0
    else if Matched(lines[i]) then 1 + Headers(lines, i + 2)
    else Headers(lines, i + 1)
  }

  /** The scan from `i` ends on a matched header that is the last input line. */
  predicate EndsOnHeader(lines: seq<string>, i: nat)
    decreases |lines| - i
  {
    if i >= |lines| then false
    else if Matched(lines[i]) then i + 1 == |lines| || EndsOnHeader(lines, i + 2)
    else EndsOnHeader(lines, i + 1)
  }

  /** Two output lines per matched header, one fewer when the last input
      line is a matched header. */
  lemma {:induction false} ExtractCount(lines: seq<string>, i: nat)
    ensures |Extract(lines, i)| == 2 * Headers(lines, i) - (if EndsOnHeader(lines, i) then 1 else 0)
    decreases |lines| - i
  {
    if i < |lines| {
      if Matched(lines[i]) {
        ExtractCount(lines, i + 2);
        if i + 1 == |lines| {
          assert Extract(lines, i + 2) == [];
          assert Headers(lines, i + 2) == 0;
        } else if EndsOnHeader(lines, i + 2) {
          EndsOnHeaderHasHeader(lines, i + 2);
        }
      } else {
        ExtractCount(lines, i + 1);
      }
    }
  }

  lemma {:induction false} EndsOnHeaderHasHeader(lines: seq<string>, i: nat)
    requires EndsOnHeader(lines, i)
    ensures Headers(lines, i) >= 1
    decreases |lines| - i
  {
    if !Matched(lines[i]) {
      EndsOnHeaderHasHeader(lines, i + 1);
    }
  }

  /** The line after a matched header is copied without being examined, so
      a second beIN header right after the first is copied as if it were a
      URL and its own URL is dropped. */
  lemma NextLineNotExamined()
    ensures Extract(["#EXTINF:-1,bein 1", "#EXTINF:-1,bein 2", "http://u"], 0)
         == ["#EXTINF:-1,bein 1", "#EXTINF:-1,bein 2"]
  {
    var lines := ["#EXTINF:-1,bein 1", "#EXTINF:-1,bein 2", "http://u"];
    StripUnchanged(lines[0]);
    StripUnchanged(lines[1]);
    StripUnchanged(lines[2]);
    assert lines[0][..7] == "#EXTINF";
    var low := Lower(lines[0]);
    assert low[11..15] == "bein";
    ContainsAt(low, "bein", 11);
    assert lines[2][..1] == "h";
    assert !StartsWith(lines[2], "#EXTINF");
  }
}
