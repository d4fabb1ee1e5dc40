/** The parts of Go's `strings` package that the analyzers rely on.

    A Go string is modelled as the sequence of its Unicode code points, so the
    model is exact for valid UTF-8 text. Only single-character separators are
    used by the analyzers, so `Split` and `Join` take a `char`. */
module GoStrings {
  import opened Sequences


  /** unicode.IsSpace: the white space that strings.Fields splits on and
      strings.TrimSpace removes. */
  predicate IsSpace(c: char) {
    var n := c as int;
    (9 <= n <= 13) || n == 32 || n == 0x85 || n == 0xA0 || n == 0x1680
    || (0x2000 <= n <= 0x200A) || n == 0x2028 || n == 0x2029 || n == 0x202F
    || n == 0x205F || n == 0x3000
  }

  /** A non-empty run of non-space characters. */
  predicate IsWord(w: string) {
    w != [] && forall i :: 0 <= i < |w| ==> !IsSpace(w[i])
  }

  /** strings.HasPrefix */
  predicate HasPrefix(s: string, prefix: string) {
    |prefix| <= |s| && s[..|prefix|] == prefix
  }

  /** strings.TrimPrefix: drops `prefix` once when `s` starts with it. */
  function TrimPrefix(s: string, prefix: string): (r: string)
    ensures HasPrefix(s, prefix) ==> prefix + r == s
    ensures !HasPrefix(s, prefix) ==> r == s
  {
    if HasPrefix(s, prefix) then
      assert s == s[..|prefix|] + s[|prefix|..];
      s[|prefix|..]
    else s
  }

  /** strings.Contains */
  predicate Contains(s: string, substr: string) {
    exists i :: 0 <= i <= |s| && HasPrefix(s[i..], substr)
  }

  /** strings.TrimSpace(s) == "": the string holds white space only. */
  predicate IsBlank(s: string) {
    forall i :: 0 <= i < |s| ==> IsSpace(s[i])
  }

  /** strings.IndexByte, with |s| standing for "not found". */
  function IndexOf(s: string, c: char): (k: nat)
    ensures k <= |s|
    ensures forall i :: 0 <= i < k ==> s[i] != c
    ensures c !in s[..k]
    ensures k < |s| ==> s[k] == c
  {
    if s == [] || s[0] == c then 0
    else
      var k := 1 + IndexOf(s[1..], c);
      assert s[..k] == [s[0]] + s[1..][..k - 1];
      k
  }

  /** strings.Split with a one-character separator: the pieces between the
      separators, one more piece than there are separators. */
  function Split(s: string, sep: char): (parts: seq<string>)
    ensures |parts| >= 1
    ensures parts[0] == s[..IndexOf(s, sep)]
    ensures forall i :: 0 <= i < |parts| ==> sep !in parts[i]
    decreases |s|
  {
    var k := IndexOf(s, sep);
    if k == |s| then [s] else [s[..k]] + Split(s[k + 1..], sep)
  }

  /** strings.Join with a one-character separator. */
  function Join(parts: seq<string>, sep: char): string {
    if parts == [] then []
    else if |parts| == 1 then parts[0]
    else parts[0] + [sep] + Join(parts[1..], sep)
  }

  /** Splitting and joining again gives back the text. */
  lemma {:induction false} JoinOfSplit(s: string, sep: char)
    ensures Join(Split(s, sep), sep) == s
    decreases |s|
  {
    var k := IndexOf(s, sep);
    if k < |s| {
      var rest := s[k + 1..];
      JoinOfSplit(rest, sep);
      assert Split(s, sep) == [s[..k]] + Split(rest, sep);
      assert s == s[..k] + [sep] + rest;
    }
  }

  /** Joining pieces free of the separator and splitting again gives back the pieces. */
  lemma {:induction false} SplitOfJoin(parts: seq<string>, sep: char)
    requires |parts| >= 1
    requires forall i :: 0 <= i < |parts| ==> sep !in parts[i]
    ensures Split(Join(parts, sep), sep) == parts
  {
    if |parts| > 1 {
      var s := Join(parts, sep);
      var head := parts[0];
      var rest := Join(parts[1..], sep);
      assert s == head + [sep] + rest;
      assert IndexOf(s, sep) == |head| by {
        var k := IndexOf(s, sep);
        assert s[|head|] == sep;
        assert forall i :: 0 <= i < |head| ==> s[i] == head[i];
      }
      assert s[..|head|] == head;
      assert s[|head| + 1..] == rest;
      SplitOfJoin(parts[1..], sep);
    } else {
      assert IndexOf(parts[0], sep) == |parts[0]|;
    }
  }

  /** Split returns one piece more than the separators it finds. */
  lemma {:induction false} SplitLength(s: string, sep: char)
    ensures |Split(s, sep)| == multiset(s)[sep] + 1
    decreases |s|
  {
    var k := IndexOf(s, sep);
    if k == |s| {
      assert s[..k] == s;
      CountMissing(s, sep);
    } else {
      var rest := s[k + 1..];
      SplitLength(rest, sep);
      SplitAt(s, k);
      CountAfterFirst(s[..k], sep, rest);
    }
  }

  lemma CountMissing(s: string, c: char)
    requires c !in s
    ensures multiset(s)[c] == 0
  {
  }

  lemma CountAfterFirst(a: string, c: char, b: string)
    requires c !in a
    ensures multiset(a + [c] + b)[c] == multiset(b)[c] + 1
  {
    MultisetOfAppend(a + [c], b);
    MultisetOfAppend(a, [c]);
    CountMissing(a, c);
  }

  /** Length of the run of non-space characters that starts `s`. */
  function SpanNonSpace(s: string): (n: nat)
    ensures n <= |s|
    ensures forall i :: 0 <= i < n ==> !IsSpace(s[i])
    ensures n < |s| ==> IsSpace(s[n])
  {
    if s == [] || IsSpace(s[0]) then 0 else 1 + SpanNonSpace(s[1..])
  }

  /** The characters of `s` that are not white space, in order. */
  function NonSpace(s: string): string {
    if s == [] then []
    else (if IsSpace(s[0]) then [] else [s[0]]) + NonSpace(s[1..])
  }

  /** The concatenation of a sequence of strings. */
  function Concat(parts: seq<string>): string {
    if parts == [] then [] else parts[0] + Concat(parts[1..])
  }

  lemma {:induction false} NonSpaceAppend(a: string, b: string)
    ensures NonSpace(a + b) == NonSpace(a) + NonSpace(b)
  {
    if a != [] {
      assert (a + b)[0] == a[0];
      assert (a + b)[1..] == a[1..] + b;
      NonSpaceAppend(a[1..], b);
      var head := if IsSpace(a[0]) then [] else [a[0]];
      assert NonSpace(a + b) == head + NonSpace(a[1..] + b);
      assert NonSpace(a) == head + NonSpace(a[1..]);
    } else {
      assert a + b == b;
    }
  }

  lemma {:induction false} NonSpaceOfWord(w: string)
    requires forall i :: 0 <= i < |w| ==> !IsSpace(w[i])
    ensures NonSpace(w) == w
  {
    if w != [] {
      NonSpaceOfWord(w[1..]);
    }
  }

  /** strings.Fields: the maximal runs of non-space characters. Every field is
      non-empty and holds no white space, and together the fields hold exactly
      the non-space characters of `s`. */
  function Fields(s: string): (fields: seq<string>)
    ensures forall i :: 0 <= i < |fields| ==> fields[i] != []
    ensures forall i, j :: 0 <= i < |fields| && 0 <= j < |fields[i]| ==> !IsSpace(fields[i][j])
    ensures Concat(fields) == NonSpace(s)
    decreases |s|
  {
    if s == [] then []
    else if IsSpace(s[0]) then Fields(s[1..])
    else
      var n := SpanNonSpace(s);
      assert s == s[..n] + s[n..];
      NonSpaceAppend(s[..n], s[n..]);
      NonSpaceOfWord(s[..n]);
      [s[..n]] + Fields(s[n..])
  }

  /** The first `c` in `a + [c] + b` is the one after `a` when `a` has none. */
  lemma IndexOfAfter(a: string, c: char, b: string)
    requires c !in a
    ensures IndexOf(a + [c] + b, c) == |a|
  {
    var s := a + [c] + b;
    var k := IndexOf(s, c);
    assert s[|a|] == c;
    assert forall i :: 0 <= i < |a| ==> s[i] == a[i];
  }

  /** Splitting at the first separator: the piece before it comes first. */
  lemma SplitCons(a: string, c: char, b: string)
    requires c !in a
    ensures Split(a + [c] + b, c) == [a] + Split(b, c)
  {
    var s := a + [c] + b;
    IndexOfAfter(a, c, b);
    assert s[..|a|] == a;
    assert s[|a| + 1..] == b;
  }

  /** Text without the separator is a single piece. */
  lemma SplitOfWord(w: string, c: char)
    requires c !in w
    ensures Split(w, c) == [w]
  {
    assert IndexOf(w, c) == |w|;
  }

  /** A word followed by a space is the first field, whatever follows. */
  lemma FieldsCons(w: string, rest: string)
    requires IsWord(w)
    ensures Fields(w + " " + rest) == [w] + Fields(rest)
  {
    var s := w + " " + rest;
    var n := SpanNonSpace(s);
    assert s[0] == w[0];
    assert s[|w|] == ' ';
    assert forall i :: 0 <= i < |w| ==> s[i] == w[i];
    assert n == |w|;
    assert s[..n] == w;
    assert s[n..] == " " + rest;
    assert (" " + rest)[1..] == rest;
  }

  /** A word alone is one field. */
  lemma FieldsOfWord(w: string)
    requires IsWord(w)
    ensures Fields(w) == [w]
  {
    var n := SpanNonSpace(w);
    assert w[..n] == w;
  }

  /** Leading white space produces no field. */
  lemma {:induction false} FieldsSkipBlank(pre: string, s: string)
    requires IsBlank(pre)
    ensures Fields(pre + s) == Fields(s)
    decreases |pre|
  {
    if pre == [] {
      assert pre + s == s;
    } else {
      var t := pre + s;
      assert t[0] == pre[0];
      assert t[1..] == pre[1..] + s;
      FieldsSkipBlank(pre[1..], s);
    }
  }

  /** A blank text has no field. */
  lemma FieldsOfBlank(s: string)
    requires IsBlank(s)
    ensures Fields(s) == []
  {
    FieldsSkipBlank(s, []);
    AppendEmpty(s);
  }

  /** A word ended by any white-space character is the first field. */
  lemma FieldsWordThenSpace(w: string, c: char, rest: string)
    requires IsWord(w) && IsSpace(c)
    ensures Fields(w + [c] + rest) == [w] + Fields(rest)
  {
    var s := w + [c] + rest;
    var n := SpanNonSpace(s);
    assert s[0] == w[0];
    assert s[|w|] == c;
    assert forall i :: 0 <= i < |w| ==> s[i] == w[i];
    assert n == |w|;
    assert s[..n] == w;
    var tail := [c] + rest;
    assert s[n..] == tail;
    assert tail[0] == c && tail[1..] == rest;
  }

  /** After leading white space, a word ended by white space is the first
      field and the fields of the rest follow: fields are split at white space
      only. */
  lemma FieldsAfterBlank(pre: string, w: string, c: char, rest: string)
    requires IsBlank(pre) && IsWord(w) && IsSpace(c)
    ensures Fields(pre + w + [c] + rest) == [w] + Fields(rest)
  {
    AppendAssoc(pre, w + [c], rest);
    AppendAssoc(pre, w, [c]);
    FieldsSkipBlank(pre, w + [c] + rest);
    FieldsWordThenSpace(w, c, rest);
  }

  /** After leading white space, a word that ends the text is its last
      field. */
  lemma FieldsBlankThenWord(pre: string, w: string)
    requires IsBlank(pre) && IsWord(w)
    ensures Fields(pre + w) == [w]
  {
    FieldsSkipBlank(pre, w);
    FieldsOfWord(w);
  }

  /** strings.Contains holds exactly when the substring is some slice of
      the text. */
  lemma ContainsAt(s: string, sub: string)
    ensures Contains(s, sub) <==> exists i, j :: 0 <= i <= j <= |s| && s[i..j] == sub
  {
    if Contains(s, sub) {
      ContainsGivesSlice(s, sub);
    }
    if exists i, j :: 0 <= i <= j <= |s| && s[i..j] == sub {
      var i, j :| 0 <= i <= j <= |s| && s[i..j] == sub;
      SliceGivesContains(s, sub, i, j);
    }
  }

  lemma ContainsGivesSlice(s: string, sub: string)
    requires Contains(s, sub)
    ensures exists i, j :: 0 <= i <= j <= |s| && s[i..j] == sub
  {
    var i :| 0 <= i <= |s| && HasPrefix(s[i..], sub);
    assert s[i..][..|sub|] == s[i..i + |sub|];
  }

  lemma SliceGivesContains(s: string, sub: string, i: int, j: int)
    requires 0 <= i <= j <= |s| && s[i..j] == sub
    ensures Contains(s, sub)
  {
    assert s[i..][..|sub|] == s[i..j];
    assert HasPrefix(s[i..], sub);
  }

  /** strings.LastIndexByte, with -1 standing for "not found". */
  function LastIndexOf(s: string, c: char): (k: int)
    ensures -1 <= k < |s|
    ensures k >= 0 ==> s[k] == c
    ensures forall i :: k < i < |s| ==> s[i] != c
  {
    if s == [] then -1
    else if s[|s| - 1] == c then |s| - 1
    else LastIndexOf(s[..|s| - 1], c)
  }

  /** The last `c` in `a + [c] + b` is the one after `a` when `b` has none. */
  lemma {:induction false} LastIndexOfBefore(a: string, c: char, b: string)
    requires c !in b
    ensures LastIndexOf(a + [c] + b, c) == |a|
    decreases |b|
  {
    var s := a + [c] + b;
    if b == [] {
      assert s[|s| - 1] == c;
    } else {
      var front := b[..|b| - 1];
      assert s[|s| - 1] == b[|b| - 1];
      assert b[|b| - 1] in b;
      assert s[..|s| - 1] == a + [c] + front;
      assert forall x :: x in front ==> x in b;
      LastIndexOfBefore(a, c, front);
    }
  }

  /** A text contains its own prefix. */
  lemma ContainsPrefix(prefix: string, rest: string)
    ensures Contains(prefix + rest, prefix)
  {
    var s := prefix + rest;
    assert s[0..] == s;
    assert s[..|prefix|] == prefix;
  }
}
