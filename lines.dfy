/** `splitLines` and `isMaster` of analyzer/slowlog_analyzer.go. */
module Lines {
  import opened GoStrings
  import opened Sequences

  /** True when `s` ends in a newline. */
  predicate EndsWithNewline(s: string) {
    s != [] && s[|s| - 1] == '\n'
  }

  /** The lines of `s`: the pieces between newlines, where a newline ends the
      line before it, so no line follows a final newline and "" has no lines. */
  function LinesOf(s: string): seq<string>
    decreases |s|
  {
    if s == [] then []
    else
      var k := IndexOf(s, '\n');
      if k == |s| then [s] else [s[..k]] + LinesOf(s[k + 1..])
  }

  /** The lines of `t` when its first newline is at `k`. */
  lemma LinesAtNewline(t: string, k: nat)
    requires k < |t| && t[k] == '\n'
    requires forall j :: 0 <= j < k ==> t[j] != '\n'
    ensures LinesOf(t) == [t[..k]] + LinesOf(t[k + 1..])
  {
    assert IndexOf(t, '\n') == k;
  }

  /** A line, its newline and the rest: the line comes first. */
  lemma LinesCons(w: string, rest: string)
    requires '\n' !in w
    ensures LinesOf(w + "\n" + rest) == [w] + LinesOf(rest)
  {
    var t := w + "\n" + rest;
    assert forall j :: 0 <= j < |w| ==> t[j] == w[j];
    LinesAtNewline(t, |w|);
    assert t[..|w|] == w;
    assert t[|w| + 1..] == rest;
  }

  /** A text made of whole lines splits apart from whatever follows it. */
  lemma {:induction false} LinesAppend(a: string, b: string)
    requires a == [] || EndsWithNewline(a)
    ensures LinesOf(a + b) == LinesOf(a) + LinesOf(b)
    decreases |a|
  {
    if a == [] {
      assert a + b == b;
    } else {
      var k := IndexOf(a, '\n');
      var w, rest := a[..k], a[k + 1..];
      assert LinesOf(a) == [w] + LinesOf(rest) by {
        assert a == w + "\n" + rest;
        LinesCons(w, rest);
      }
      assert LinesOf(a + b) == [w] + LinesOf(rest + b) by {
        assert a + b == w + "\n" + (rest + b);
        LinesCons(w, rest + b);
      }
      assert rest == [] || EndsWithNewline(rest);
      LinesAppend(rest, b);
      AppendAssoc([w], LinesOf(rest), LinesOf(b));
    }
  }

  /** Text without a newline is one line, or none when it is empty. */
  lemma LinesOfOneLine(w: string)
    requires '\n' !in w
    ensures LinesOf(w) == if w == [] then [] else [w]
  {
    if w != [] {
      assert IndexOf(w, '\n') == |w|;
    }
  }

  /** A line with its newline is that one line. */
  lemma LinesOfTerminatedLine(w: string)
    requires '\n' !in w
    ensures LinesOf(w + "\n") == [w]
  {
    var t := w + "\n";
    assert forall j :: 0 <= j < |w| ==> t[j] == w[j];
    LinesAtNewline(t, |w|);
    assert t[..|w|] == w;
    assert t[|w| + 1..] == [];
  }

  /** splitLines: scans `s` once, cutting a line at every newline and keeping
      a final line only when text follows the last newline. */
  method SplitLines(s: string) returns (lines: seq<string>)
    ensures lines == LinesOf(s)
  {
    lines := [];
    var start := 0;
    for i := 0 to |s|
      invariant start <= i
      invariant start == 0 || s[start - 1] == '\n'
      invariant forall j :: start <= j < i ==> s[j] != '\n'
      invariant lines == LinesOf(s[..start])
    {
      if s[i] == '\n' {
        LinesAtCut(s, start, i);
        lines := lines + [s[start..i]];
        start := i + 1;
      }
    }
    LinesAfterLastCut(s, start);
    if start < |s| {
      lines := lines + [s[start..]];
    }
  }

  /** The loop's step: the newline at `i` ends the line that began at `start`. */
  lemma LinesAtCut(s: string, start: nat, i: nat)
    requires start <= i < |s| && s[i] == '\n'
    requires start == 0 || s[start - 1] == '\n'
    requires forall j :: start <= j < i ==> s[j] != '\n'
    ensures LinesOf(s[..i + 1]) == LinesOf(s[..start]) + [s[start..i]]
  {
    assert s[..i + 1] == s[..start] + (s[start..i] + "\n");
    LinesAppend(s[..start], s[start..i] + "\n");
    LinesOfTerminatedLine(s[start..i]);
  }

  /** After the loop: what follows the last newline is the last line, if any. */
  lemma LinesAfterLastCut(s: string, start: nat)
    requires start <= |s|
    requires start == 0 || s[start - 1] == '\n'
    requires forall j :: start <= j < |s| ==> s[j] != '\n'
    ensures LinesOf(s) == LinesOf(s[..start]) + if start < |s| then [s[start..]] else []
  {
    assert s == s[..start] + s[start..];
    LinesAppend(s[..start], s[start..]);
    LinesOfOneLine(s[start..]);
  }

  /** Every line is free of newlines. */
  lemma {:induction false} LinesHaveNoNewline(s: string)
    ensures forall i :: 0 <= i < |LinesOf(s)| ==> '\n' !in LinesOf(s)[i]
    decreases |s|
  {
    if s != [] {
      var k := IndexOf(s, '\n');
      if k < |s| {
        LinesHaveNoNewline(s[k + 1..]);
      }
    }
  }

  /** Non-empty text has at least one line. */
  lemma LinesOfNonEmpty(s: string)
    requires s != []
    ensures LinesOf(s) != []
  {
  }

  /** Joining a line in front of at least one more line. */
  lemma JoinCons(w: string, lines: seq<string>)
    requires lines != []
    ensures Join([w] + lines, '\n') == w + "\n" + Join(lines, '\n')
  {
    assert ([w] + lines)[1..] == lines;
  }

  /** The lines joined with newlines, plus the final newline when `s` had one,
      give back `s` exactly. */
  lemma {:induction false} LinesRoundTrip(s: string)
    ensures Join(LinesOf(s), '\n') + (if EndsWithNewline(s) then "\n" else "") == s
    decreases |s|
  {
    if s != [] {
      var k := IndexOf(s, '\n');
      if k == |s| {
        assert s[..k] == s;
        LinesOfOneLine(s);
        assert !EndsWithNewline(s) by {
          assert s[|s| - 1] != '\n';
        }
        AppendEmpty(s);
      } else {
        var w, rest := s[..k], s[k + 1..];
        assert s == w + "\n" + rest by {
          SplitAt(s, k);
        }
        LinesCons(w, rest);
        if rest == [] {
          AppendEmpty(w + "\n");
        } else {
          var lines := LinesOf(rest);
          var tail: string := if EndsWithNewline(rest) then "\n" else "";
          LinesRoundTrip(rest);
          LinesOfNonEmpty(rest);
          JoinCons(w, lines);
          assert EndsWithNewline(s) == EndsWithNewline(rest);
          AppendAssoc(w + "\n", Join(lines, '\n'), tail);
        }
      }
    }
  }

  /** Every line followed by a newline. */
  function Terminated(lines: seq<string>): string {
    if lines == [] then [] else lines[0] + "\n" + Terminated(lines[1..])
  }

  /** Newline-terminated lines split back into exactly those lines. */
  lemma {:induction false} LinesOfTerminated(lines: seq<string>)
    requires forall i :: 0 <= i < |lines| ==> '\n' !in lines[i]
    ensures LinesOf(Terminated(lines)) == lines
  {
    if lines != [] {
      LinesCons(lines[0], Terminated(lines[1..]));
      LinesOfTerminated(lines[1..]);
    }
  }

  /** The number of lines `LinesCount` promises. */
  function CountedLines(s: string): nat {
    multiset(s)['\n'] + (if s != [] && !EndsWithNewline(s) then 1 else 0)
  }

  /** One line per newline, plus one for text after the last newline. */
  lemma {:induction false} LinesCount(s: string)
    ensures |LinesOf(s)| == multiset(s)['\n'] + (if s != [] && !EndsWithNewline(s) then 1 else 0)
    decreases |s|
  {
    if s != [] {
      var k := IndexOf(s, '\n');
      if k == |s| {
        assert s[..k] == s;
        LinesCountOneLine(s);
      } else {
        SplitAt(s, k);
        LinesCount(s[k + 1..]);
        LinesCountStep(s[..k], s[k + 1..]);
      }
    }
  }

  lemma LinesCountOneLine(s: string)
    requires s != [] && '\n' !in s
    ensures |LinesOf(s)| == CountedLines(s)
  {
    LinesOfOneLine(s);
    assert s[|s| - 1] != '\n';
  }

  lemma LinesCountStep(w: string, rest: string)
    requires '\n' !in w
    requires |LinesOf(rest)| == CountedLines(rest)
    ensures |LinesOf(w + "\n" + rest)| == CountedLines(w + "\n" + rest)
  {
    var s := w + "\n" + rest;
    LinesCons(w, rest);
    assert multiset(s)['\n'] == multiset(rest)['\n'] + 1 by {
      MultisetOfAppend(w + "\n", rest);
      MultisetOfAppend(w, "\n");
    }
    if rest != [] {
      assert EndsWithNewline(s) == EndsWithNewline(rest);
    }
  }

  /** splitLines is strings.Split on '\n' with exactly one trailing empty
      piece dropped when the text ends in a newline, and no lines for "". */
  lemma {:induction false} LinesAreSplitPieces(s: string)
    ensures s == [] ==> LinesOf(s) == []
    ensures EndsWithNewline(s) ==>
      var pieces := Split(s, '\n'); pieces[|pieces| - 1] == [] && LinesOf(s) == pieces[..|pieces| - 1]
    ensures s != [] && !EndsWithNewline(s) ==> LinesOf(s) == Split(s, '\n')
    decreases |s|
  {
    if s != [] {
      var k := IndexOf(s, '\n');
      if k == |s| {
        assert s[|s| - 1] != '\n';
      } else {
        var w, rest := s[..k], s[k + 1..];
        assert Split(s, '\n') == [w] + Split(rest, '\n');
        assert LinesOf(s) == [w] + LinesOf(rest);
        if rest == [] {
          assert EndsWithNewline(s);
        } else {
          LinesAreSplitPieces(rest);
          assert EndsWithNewline(s) == EndsWithNewline(rest);
          var tail := Split(rest, '\n');
          if EndsWithNewline(rest) {
            DropLastOfCons(w, tail);
          }
        }
      }
    }
  }

  /** A line of an INFO reply that names the replication role. */
  predicate IsRoleLine(line: string) {
    |line| >= 5 && line[..5] == "role:"
  }

  /** `lines[i]` is the first role line. */
  predicate FirstRoleLine(lines: seq<string>, i: int) {
    0 <= i < |lines| && IsRoleLine(lines[i]) && forall j :: 0 <= j < i ==> !IsRoleLine(lines[j])
  }

  /** isMaster's scan, which stops at the first role line. */
  function FirstRoleIsMaster(lines: seq<string>): (master: bool)
    ensures master ==> exists i :: 0 <= i < |lines| && IsRoleLine(lines[i]) && lines[i][5..] == "master"
  {
    if lines == [] then false
    else if IsRoleLine(lines[0]) then lines[0][5..] == "master"
    else FirstRoleIsMaster(lines[1..])
  }

  /** The scan answers true exactly when the first role line reads
      `role:master`: later role lines are ignored, and without a role line
      the answer is false. */
  lemma {:induction false} FirstRoleIsMasterIff(lines: seq<string>)
    ensures FirstRoleIsMaster(lines) <==> exists i :: FirstRoleLine(lines, i) && lines[i][5..] == "master"
    ensures (forall i :: 0 <= i < |lines| ==> !IsRoleLine(lines[i])) ==> !FirstRoleIsMaster(lines)
  {
    if lines != [] {
      if IsRoleLine(lines[0]) {
        assert FirstRoleLine(lines, 0);
        forall i | FirstRoleLine(lines, i)
          ensures i == 0
        {
        }
      } else {
        var tail := lines[1..];
        FirstRoleIsMasterIff(tail);
        if FirstRoleIsMaster(lines) {
          var i :| FirstRoleLine(tail, i) && tail[i][5..] == "master";
          assert FirstRoleLine(lines, i + 1);
        } else {
          forall i | FirstRoleLine(lines, i)
            ensures lines[i][5..] != "master"
          {
            assert FirstRoleLine(tail, i - 1);
          }
        }
      }
    }
  }

  /** isMaster: whether the first `role:` line of an INFO reply is exactly
      `role:master`. */
  function IsMaster(info: string): (master: bool)
    ensures master <==> exists i :: FirstRoleLine(LinesOf(info), i) && LinesOf(info)[i][5..] == "master"
  {
    FirstRoleIsMasterIff(LinesOf(info));
    FirstRoleIsMaster(LinesOf(info))
  }

  /** isMaster's loop: scans the lines and answers at the first role line. */
  method CheckMaster(info: string) returns (master: bool)
    ensures master == IsMaster(info)
    ensures master <==> exists i :: FirstRoleLine(LinesOf(info), i) && LinesOf(info)[i][5..] == "master"
  {
    var lines := SplitLines(info);
    var i := 0;
    while i < |lines|
      invariant 0 <= i <= |lines|
      invariant FirstRoleIsMaster(lines[i..]) == FirstRoleIsMaster(lines)
    {
      if |lines[i]| >= 5 && lines[i][..5] == "role:" {
        return lines[i][5..] == "master";
      }
      assert lines[i..][1..] == lines[i + 1..];
      i := i + 1;
    }
    return false;
  }

  /** isMaster on newline-terminated lines decides by the first role line. */
  lemma IsMasterOfLines(lines: seq<string>)
    requires forall i :: 0 <= i < |lines| ==> '\n' !in lines[i]
    ensures IsMaster(Terminated(lines)) <==> exists i :: FirstRoleLine(lines, i) && lines[i][5..] == "master"
  {
    LinesOfTerminated(lines);
    FirstRoleIsMasterIff(lines);
  }

  // An INFO reply terminates its lines with "\r\n"; isMaster cuts lines at
  // '\n' only, so every line it sees keeps its '\r'.

  /** Every line followed by "\r\n", as Redis writes an INFO reply. */
  function CrlfTerminated(lines: seq<string>): string {
    if lines == [] then [] else lines[0] + "\r\n" + CrlfTerminated(lines[1..])
  }

  /** Every line with a '\r' appended. */
  function WithCr(lines: seq<string>): (r: seq<string>)
    ensures |r| == |lines|
  {
    if lines == [] then [] else [lines[0] + "\r"] + WithCr(lines[1..])
  }

  /** Cut at '\n', a CRLF reply yields its lines with the '\r' still on. */
  lemma {:induction false} LinesOfCrlf(lines: seq<string>)
    requires forall i :: 0 <= i < |lines| ==> '\n' !in lines[i]
    ensures LinesOf(CrlfTerminated(lines)) == WithCr(lines)
  {
    if lines != [] {
      var rest := CrlfTerminated(lines[1..]);
      assert lines[0] + "\r\n" + rest == (lines[0] + "\r") + "\n" + rest;
      LinesCons(lines[0] + "\r", rest);
      LinesOfCrlf(lines[1..]);
    }
  }

  /** No line ending in '\r' reads `role:master`. */
  lemma {:induction false} NoMasterWithCr(lines: seq<string>)
    ensures !FirstRoleIsMaster(WithCr(lines))
  {
    if lines != [] {
      var first := lines[0] + "\r";
      if IsRoleLine(first) {
        assert first[|first| - 1] == '\r';
        if |first| > 5 {
          assert first[5..][|first| - 6] == '\r';
        }
      } else {
        NoMasterWithCr(lines[1..]);
      }
    }
  }

  /** As written, isMaster is false on every INFO reply with CRLF line ends,
      whatever role it names. */
  lemma IsMasterFalseOnCrlf(lines: seq<string>)
    requires forall i :: 0 <= i < |lines| ==> '\n' !in lines[i]
    ensures !IsMaster(CrlfTerminated(lines))
  {
    LinesOfCrlf(lines);
    NoMasterWithCr(lines);
  }

  /** The replication section of a master's INFO reply, line by line. */
  const MasterInfoLines: seq<string> := ["# Replication", "role:master"]

  lemma MasterInfoText()
    ensures CrlfTerminated(MasterInfoLines) == "# Replication\r\nrole:master\r\n"
    ensures forall i :: 0 <= i < |MasterInfoLines| ==> '\n' !in MasterInfoLines[i]
  {
  }

  /** The reply of a master: isMaster answers false. */
  lemma IsMasterMissesCrlfMaster()
    ensures !IsMaster("# Replication\r\nrole:master\r\n")
  {
    MasterInfoText();
    IsMasterFalseOnCrlf(MasterInfoLines);
  }

  /** strings.TrimSuffix(line, "\r") on every line. */
  function StripCr(lines: seq<string>): (r: seq<string>)
    ensures |r| == |lines|
  {
    if lines == [] then []
    else
      var line := lines[0];
      var trimmed := if line != [] && line[|line| - 1] == '\r' then line[..|line| - 1] else line;
      [trimmed] + StripCr(lines[1..])
  }

  /** isMaster with each line's trailing '\r' removed before the role test. */
  function IsMasterTrimmed(info: string): bool {
    FirstRoleIsMaster(StripCr(LinesOf(info)))
  }

  lemma {:induction false} StripCrOfWithCr(lines: seq<string>)
    ensures StripCr(WithCr(lines)) == lines
  {
    if lines != [] {
      var line := lines[0] + "\r";
      assert line[..|line| - 1] == lines[0];
      StripCrOfWithCr(lines[1..]);
    }
  }

  lemma {:induction false} StripCrKeeps(lines: seq<string>)
    requires forall i :: 0 <= i < |lines| ==> lines[i] == [] || lines[i][|lines[i]| - 1] != '\r'
    ensures StripCr(lines) == lines
  {
    if lines != [] {
      StripCrKeeps(lines[1..]);
    }
  }

  /** The corrected check gives the same answer for a reply with CRLF line
      ends as for the same lines ended by '\n' alone, and that answer is the
      first role line's. */
  lemma IsMasterTrimmedAgrees(lines: seq<string>)
    requires forall i :: 0 <= i < |lines| ==> '\n' !in lines[i]
    requires forall i :: 0 <= i < |lines| ==> lines[i] == [] || lines[i][|lines[i]| - 1] != '\r'
    ensures IsMasterTrimmed(CrlfTerminated(lines)) == IsMasterTrimmed(Terminated(lines))
    ensures IsMasterTrimmed(CrlfTerminated(lines)) <==> exists i :: FirstRoleLine(lines, i) && lines[i][5..] == "master"
  {
    LinesOfCrlf(lines);
    StripCrOfWithCr(lines);
    LinesOfTerminated(lines);
    StripCrKeeps(lines);
    FirstRoleIsMasterIff(lines);
  }

  /** The reply of a master: the corrected check answers true. */
  lemma IsMasterTrimmedFindsCrlfMaster()
    ensures IsMasterTrimmed("# Replication\r\nrole:master\r\n")
  {
    MasterInfoText();
    MasterInfoRole();
    IsMasterTrimmedAgrees(MasterInfoLines);
  }

  lemma MasterInfoRole()
    ensures forall i :: 0 <= i < |MasterInfoLines| ==> MasterInfoLines[i] == [] || MasterInfoLines[i][|MasterInfoLines[i]| - 1] != '\r'
    ensures FirstRoleLine(MasterInfoLines, 1) && MasterInfoLines[1][5..] == "master"
  {
    assert MasterInfoLines[0][..5][0] == '#';
  }
}
