/**
 * The string transforms applied to response bodies (src/metadata.rs:247-279):
 * `trim`, `lines`, `json_array`, `parse_instance_name` and `parse_zone`, with
 * the pieces of Rust's `str` they are built from (`trim`, `split`).
 */
module Text {
  import opened Errors

  /** Rust's `char::is_whitespace`: the code points with the Unicode White_Space property. */
  predicate IsWhitespace(c: char) {
    ('\t' <= c <= '\r') || c == ' ' || c == '\U{85}' || c == '\U{A0}' || c == '\U{1680}'
    || ('\U{2000}' <= c <= '\U{200A}') || c == '\U{2028}' || c == '\U{2029}' || c == '\U{202F}'
    || c == '\U{205F}' || c == '\U{3000}'
  }

  predicate AllWhitespace(s: string) {
    forall i :: 0 <= i < |s| ==> IsWhitespace(s[i])
  }

  /** Neither starts nor ends with whitespace. */
  predicate IsTrimmed(s: string) {
    s == [] || (!IsWhitespace(s[0]) && !IsWhitespace(s[|s| - 1]))
  }

  /** The position of the first non-whitespace character at or after `i`, or the length when there is none. */
  function FirstNonWhitespace(s: string, i: nat): (k: nat)
    requires i <= |s|
    ensures i <= k <= |s|
    ensures forall j :: i <= j < k ==> IsWhitespace(s[j])
    ensures k < |s| ==> !IsWhitespace(s[k])
    decreases |s| - i
  {
    if i < |s| && IsWhitespace(s[i]) then FirstNonWhitespace(s, i + 1) else i
  }

  /** The position just after the last non-whitespace character before `j`, or 0 when there is none. */
  function EndOfContent(s: string, j: nat): (k: nat)
    requires j <= |s|
    ensures k <= j
    ensures forall m :: k <= m < j ==> IsWhitespace(s[m])
    ensures k > 0 ==> !IsWhitespace(s[k - 1])
  {
    if j > 0 && IsWhitespace(s[j - 1]) then EndOfContent(s, j - 1) else j
  }

  /** Its contract determines `FirstNonWhitespace`: any position with whitespace before it and none at it is the one. */
  lemma FirstNonWhitespaceAt(s: string, i: nat, k: nat)
    requires i <= k <= |s|
    requires forall j :: i <= j < k ==> IsWhitespace(s[j])
    requires k < |s| ==> !IsWhitespace(s[k])
    ensures FirstNonWhitespace(s, i) == k
  {
  }

  /** Its contract determines `EndOfContent` in the same way. */
  lemma EndOfContentAt(s: string, j: nat, k: nat)
    requires k <= j <= |s|
    requires forall m :: k <= m < j ==> IsWhitespace(s[m])
    requires k > 0 ==> !IsWhitespace(s[k - 1])
    ensures EndOfContent(s, j) == k
  {
  }

  /**
   * `trim` (metadata.rs:247-249, `str::trim`): the input with its leading and
   * trailing whitespace removed, that is, the slice from the first
   * non-whitespace character to the last one, or nothing when there is none.
   * The result neither starts nor ends with whitespace.
   */
  function Trim(s: string): (r: string)
    ensures IsTrimmed(r)
    ensures |r| <= |s|
  {
    var i := FirstNonWhitespace(s, 0);
    var j := EndOfContent(s, |s|);
    if i < j then s[i..j] else ""
  }

  /** What `Trim` cuts off is whitespace on both sides of the slice it keeps. */
  lemma TrimIsSlice(s: string) returns (i: nat)
    ensures i + |Trim(s)| <= |s|
    ensures Trim(s) == s[i..i + |Trim(s)|]
    ensures forall k :: 0 <= k < i ==> IsWhitespace(s[k])
    ensures forall k :: i + |Trim(s)| <= k < |s| ==> IsWhitespace(s[k])
  {
    var a := FirstNonWhitespace(s, 0);
    var b := EndOfContent(s, |s|);
    if a < b {
      i := a;
      assert Trim(s) == s[a..b];
    } else {
      i := 0;
      assert Trim(s) == "";
      assert a == |s|;
    }
  }

  /** Trimming adds no character: every character of the result is one of the input's. */
  lemma TrimKeepsCharacters(s: string, c: char)
    requires c in Trim(s)
    ensures c in s
  {
    var r := Trim(s);
    var i := TrimIsSlice(s);
    var k :| 0 <= k < |r| && r[k] == c;
    assert s[i + k] == c;
  }

  /** A character the input lacks is not in the result either. */
  lemma TrimKeepsOut(s: string, c: char)
    requires c !in s
    ensures c !in Trim(s)
  {
    var i := TrimIsSlice(s);
    forall k | 0 <= k < |Trim(s)| ensures Trim(s)[k] != c {
      assert Trim(s)[k] == s[i + k];
    }
  }

  /**
   * The reference description of `trim`: whatever whitespace surrounds a
   * trimmed text, trimming gives back exactly that text.
   */
  lemma TrimOfPadded(p: string, m: string, q: string)
    requires AllWhitespace(p) && AllWhitespace(q) && IsTrimmed(m)
    ensures Trim(p + m + q) == m
  {
    var s := p + m + q;
    var e := |p| + |m|;
    forall k | 0 <= k < |p| ensures IsWhitespace(s[k]) {
      assert s[k] == p[k];
    }
    forall k | e <= k < |s| ensures IsWhitespace(s[k]) {
      assert s[k] == q[k - e];
    }
    if m == [] {
      FirstNonWhitespaceAt(s, 0, |s|);
      assert Trim(s) == "";
    } else {
      assert s[|p|] == m[0] && s[e - 1] == m[|m| - 1];
      FirstNonWhitespaceAt(s, 0, |p|);
      EndOfContentAt(s, |s|, e);
      assert s[|p|..e] == m;
    }
  }

  /** A trimmed text is left as it is. */
  lemma TrimOfTrimmed(m: string)
    requires IsTrimmed(m)
    ensures Trim(m) == m
  {
    if m != [] {
      FirstNonWhitespaceAt(m, 0, 0);
      EndOfContentAt(m, |m|, |m|);
      assert m[0..|m|] == m;
    }
  }

  /** Trimming twice is trimming once. */
  lemma TrimIdempotent(s: string)
    ensures Trim(Trim(s)) == Trim(s)
  {
    TrimOfTrimmed(Trim(s));
  }

  /** The unit test at metadata.rs:342-345. */
  lemma TrimExamples()
    ensures Trim("") == ""
    ensures Trim(" \r\n\tabc \r\n\t") == "abc"
  {
    assert " \r\n\tabc \r\n\t" == " \r\n\t" + "abc" + " \r\n\t";
    TrimOfPadded(" \r\n\t", "abc", " \r\n\t");
  }

  /** Rust's `str::join` with a one-character separator. */
  function Join(parts: seq<string>, sep: char): string {
    if |parts| == 0 then ""
    else if |parts| == 1 then parts[0]
    else parts[0] + [sep] + Join(parts[1..], sep)
  }

  /**
   * `str::split(sep)`: the pieces between the separators, in order. There is
   * always at least one piece; no piece holds the separator; joining them
   * with it gives the input back.
   */
  function SplitOn(s: string, sep: char): (parts: seq<string>)
    ensures |parts| >= 1
    ensures forall i :: 0 <= i < |parts| ==> sep !in parts[i]
    ensures Join(parts, sep) == s
    decreases |s|
  {
    if s == [] then [""]
    else
      var rest := SplitOn(s[1..], sep);
      if s[0] == sep then
        var parts := [""] + rest;
        assert parts[1..] == rest;
        assert Join(parts, sep) == [sep] + Join(rest, sep);
        assert s == [sep] + s[1..];
        parts
      else
        var parts := [[s[0]] + rest[0]] + rest[1..];
        assert forall i | 1 <= i < |parts| :: parts[i] == rest[i];
        assert Join(parts, sep) == [s[0]] + Join(rest, sep) by {
          if |rest| > 1 {
            assert parts[1..] == rest[1..];
            assert Join(rest, sep) == rest[0] + [sep] + Join(rest[1..], sep);
          }
        }
        assert s == [s[0]] + s[1..];
        parts
  }

  /** The first piece of a split is the text before the first separator. */
  lemma FirstPiece(s: string, sep: char)
    ensures IsFirstSegment(SplitOn(s, sep)[0], s, sep)
  {
    var parts := SplitOn(s, sep);
    if |parts| > 1 {
      assert s == parts[0] + [sep] + Join(parts[1..], sep);
    }
  }

  lemma {:induction false} JoinLast(parts: seq<string>, sep: char)
    requires |parts| >= 1
    ensures var j, last := Join(parts, sep), parts[|parts| - 1];
      && |last| <= |j| && last == j[|j| - |last|..]
      && (|parts| > 1 ==> |last| < |j| && j[|j| - |last| - 1] == sep)
    decreases |parts|
  {
    if |parts| > 1 {
      JoinLast(parts[1..], sep);
      var rest := Join(parts[1..], sep);
      assert Join(parts, sep) == (parts[0] + [sep]) + rest;
    }
  }

  /** The last piece of a split is the text after the last separator. */
  lemma LastPiece(s: string, sep: char)
    ensures IsLastSegment(SplitOn(s, sep)[|SplitOn(s, sep)| - 1], s, sep)
  {
    JoinLast(SplitOn(s, sep), sep);
  }

  lemma {:induction false} SplitNoSeparator(s: string, sep: char)
    requires sep !in s
    ensures SplitOn(s, sep) == [s]
    decreases |s|
  {
    if s != [] {
      SplitNoSeparator(s[1..], sep);
    }
  }

  /** Splitting distributes over a separator placed between two texts. */
  lemma {:induction false} SplitAppend(a: string, b: string, sep: char)
    ensures SplitOn(a + [sep] + b, sep) == SplitOn(a, sep) + SplitOn(b, sep)
    decreases |a|
  {
    var s := a + [sep] + b;
    if a == [] {
      assert s[1..] == b;
    } else {
      assert s[0] == a[0];
      assert s[1..] == a[1..] + [sep] + b;
      SplitAppend(a[1..], b, sep);
      var left, right := SplitOn(a[1..], sep), SplitOn(b, sep);
      var rest := SplitOn(s[1..], sep);
      assert rest == left + right;
      if a[0] == sep {
        assert SplitOn(s, sep) == [""] + rest;
        assert SplitOn(a, sep) == [""] + left;
      } else {
        assert rest[0] == left[0];
        assert rest[1..] == left[1..] + right;
        assert SplitOn(s, sep) == [[a[0]] + rest[0]] + rest[1..];
        assert SplitOn(a, sep) == [[a[0]] + left[0]] + left[1..];
      }
    }
  }

  /** The inverse direction of the round trip: splitting a join gives the pieces back. */
  lemma {:induction false} SplitJoin(parts: seq<string>, sep: char)
    requires |parts| >= 1
    requires forall i :: 0 <= i < |parts| ==> sep !in parts[i]
    ensures SplitOn(Join(parts, sep), sep) == parts
    decreases |parts|
  {
    if |parts| == 1 {
      SplitNoSeparator(parts[0], sep);
    } else {
      SplitNoSeparator(parts[0], sep);
      SplitAppend(parts[0], Join(parts[1..], sep), sep);
      SplitJoin(parts[1..], sep);
      assert parts == [parts[0]] + parts[1..];
    }
  }

  /** An element of the result of `lines`: non-empty and trimmed. */
  predicate IsLine(s: string) {
    s != "" && IsTrimmed(s)
  }

  /** Trims every piece and keeps the non-empty ones, in order. */
  function KeepLines(pieces: seq<string>): (ls: seq<string>)
    ensures |ls| <= |pieces|
  {
    if pieces == [] then [] else LineOf(pieces[0]) + KeepLines(pieces[1..])
  }

  /** What one piece contributes: its trimmed self, or nothing when that is empty. */
  function LineOf(piece: string): (ls: seq<string>)
    ensures |ls| <= 1
  {
    var t := Trim(piece);
    if t == "" then [] else [t]
  }

  lemma KeepLinesCons(x: string, zs: seq<string>)
    ensures KeepLines([x] + zs) == LineOf(x) + KeepLines(zs)
  {
    assert ([x] + zs)[0] == x;
    assert ([x] + zs)[1..] == zs;
  }

  /**
   * `lines` (metadata.rs:251-257): the input split at newlines, each line
   * trimmed, empty lines dropped. Every element is a non-empty trimmed text.
   */
  function Lines(s: string): (ls: seq<string>)
    ensures forall i :: 0 <= i < |ls| ==> IsLine(ls[i])
  {
    KeepLinesAreLines(SplitOn(s, '\n'));
    KeepLines(SplitOn(s, '\n'))
  }

  /** Every element is a line. */
  predicate AllLines(ls: seq<string>) {
    forall i :: 0 <= i < |ls| ==> IsLine(ls[i])
  }

  /** No element holds `c`. */
  predicate NoneHolds(ls: seq<string>, c: char) {
    forall i :: 0 <= i < |ls| ==> c !in ls[i]
  }

  lemma LineOfIsLine(piece: string)
    ensures AllLines(LineOf(piece))
  {
  }

  lemma AllLinesAppend(a: seq<string>, b: seq<string>)
    requires AllLines(a) && AllLines(b)
    ensures AllLines(a + b)
  {
    forall i | 0 <= i < |a + b| ensures IsLine((a + b)[i]) {
      if i >= |a| {
        assert (a + b)[i] == b[i - |a|];
      }
    }
  }

  lemma NoneHoldsAppend(a: seq<string>, b: seq<string>, c: char)
    requires NoneHolds(a, c) && NoneHolds(b, c)
    ensures NoneHolds(a + b, c)
  {
    forall i | 0 <= i < |a + b| ensures c !in (a + b)[i] {
      if i >= |a| {
        assert (a + b)[i] == b[i - |a|];
      }
    }
  }

  /** Every element `KeepLines` keeps is non-empty and trimmed. */
  lemma {:induction false} KeepLinesAreLines(pieces: seq<string>)
    ensures AllLines(KeepLines(pieces))
    decreases |pieces|
  {
    if pieces != [] {
      KeepLinesAreLines(pieces[1..]);
      LineOfIsLine(pieces[0]);
      AllLinesAppend(LineOf(pieces[0]), KeepLines(pieces[1..]));
    }
  }

  lemma {:induction false} KeepLinesNoNewline(pieces: seq<string>)
    requires NoneHolds(pieces, '\n')
    ensures NoneHolds(KeepLines(pieces), '\n')
    decreases |pieces|
  {
    if pieces != [] {
      TrimKeepsOut(pieces[0], '\n');
      KeepLinesNoNewline(pieces[1..]);
      NoneHoldsAppend(LineOf(pieces[0]), KeepLines(pieces[1..]), '\n');
    }
  }

  /** No element of the result of `lines` holds a newline. */
  lemma LinesHaveNoNewline(s: string)
    ensures forall i :: 0 <= i < |Lines(s)| ==> '\n' !in Lines(s)[i]
  {
    KeepLinesNoNewline(SplitOn(s, '\n'));
  }

  lemma {:induction false} KeepLinesAppend(xs: seq<string>, ys: seq<string>)
    ensures KeepLines(xs + ys) == KeepLines(xs) + KeepLines(ys)
    decreases |xs|
  {
    if xs != [] {
      var rest := xs[1..];
      assert xs == [xs[0]] + rest;
      assert xs + ys == [xs[0]] + (rest + ys);
      KeepLinesCons(xs[0], rest + ys);
      KeepLinesCons(xs[0], rest);
      KeepLinesAppend(rest, ys);
      assert LineOf(xs[0]) + (KeepLines(rest) + KeepLines(ys)) == (LineOf(xs[0]) + KeepLines(rest)) + KeepLines(ys);
    } else {
      assert xs + ys == ys;
    }
  }

  /** Lines keep their order: the lines of two texts joined by a newline are the lines of each, in turn. */
  lemma LinesAppend(a: string, b: string)
    ensures Lines(a + "\n" + b) == Lines(a) + Lines(b)
  {
    SplitAppend(a, b, '\n');
    KeepLinesAppend(SplitOn(a, '\n'), SplitOn(b, '\n'));
  }

  /** A text without a newline is one line: its trimmed self, or nothing when that is empty. */
  lemma LinesOfOneLine(s: string)
    requires '\n' !in s
    ensures Lines(s) == if Trim(s) == "" then [] else [Trim(s)]
  {
    SplitNoSeparator(s, '\n');
    assert Lines(s) == KeepLines([s]);
    KeepLinesCons(s, []);
    assert [s] + [] == [s];
  }

  /** A single line with whitespace in front of it. */
  lemma LinesOfPaddedLine(p: string, m: string)
    requires AllWhitespace(p) && IsTrimmed(m) && m != []
    requires '\n' !in p + m
    ensures Lines(p + m) == [m]
  {
    assert p + m + "" == p + m;
    TrimOfPadded(p, m, "");
    LinesOfOneLine(p + m);
  }

  /** A single line that is already trimmed is its own list of lines. */
  lemma LinesOfTrimmedLine(m: string)
    requires IsTrimmed(m) && m != [] && '\n' !in m
    ensures Lines(m) == [m]
  {
    TrimOfTrimmed(m);
    LinesOfOneLine(m);
  }

  lemma LinesOfEmpty()
    ensures Lines("") == []
  {
    LinesOfOneLine("");
  }

  // The three lemmas below take the example text as a parameter: stating it
  // as a literal inside Lines makes the verifier evaluate the split eagerly.

  lemma LinesExampleTail(s: string)
    requires s == "\tb\n"
    ensures Lines(s) == ["b"]
  {
    var x, y := "\tb", "";
    var p, m := "\t", "b";
    assert x + "\n" + y == s;
    assert x == p + m;
    LinesOfPaddedLine(p, m);
    LinesOfEmpty();
    LinesAppend(x, y);
  }

  lemma LinesExampleBody(s: string)
    requires s == "a\n\tb\n"
    ensures Lines(s) == ["a", "b"]
  {
    var x, y := "a", "\tb\n";
    assert x + "\n" + y == s;
    LinesOfTrimmedLine(x);
    LinesExampleTail(y);
    LinesAppend(x, y);
  }

  lemma LinesExampleFull(s: string)
    requires s == "\na\n\tb\n"
    ensures Lines(s) == ["a", "b"]
  {
    var x, y := "", "a\n\tb\n";
    assert x + "\n" + y == s;
    LinesOfEmpty();
    LinesExampleBody(y);
    LinesAppend(x, y);
  }

  /** The unit test at metadata.rs:347-359. */
  lemma LinesExamples()
    ensures Lines("") == []
    ensures Lines("\na\n\tb\n") == ["a", "b"]
  {
    LinesOfEmpty();
    LinesExampleFull("\na\n\tb\n");
  }

  const JSON_ARRAY_TAG := "json array"
  const INSTANCE_NAME_TAG := "instance name"
  const ZONE_TAG := "zone"

  /**
   * `json_array` (metadata.rs:259-261) given the outcome of the JSON decoder:
   * the decoded strings, or a parse error tagged "json array".
   */
  function JsonArray(decoded: Option<seq<string>>): (r: Result<seq<string>>)
    ensures r.Ok? <==> decoded.Some?
    ensures r.Ok? ==> r.value == decoded.value
    ensures r.Err? ==> Kind(r.error) == MetadataParse(JSON_ARRAY_TAG)
  {
    match decoded
    case Some(v) => Ok(v)
    case None => Err(FromKind(MetadataParse(JSON_ARRAY_TAG)))
  }

  /** `v` is the text of `s` before its first `sep` (all of `s` when there is none). */
  predicate IsFirstSegment(v: string, s: string, sep: char) {
    v <= s && sep !in v && (|v| == |s| || s[|v|] == sep)
  }

  /** `v` is the text of `s` after its last `sep` (all of `s` when there is none). */
  predicate IsLastSegment(v: string, s: string, sep: char) {
    |v| <= |s| && v == s[|s| - |v|..] && sep !in v && (|v| == |s| || s[|s| - |v| - 1] == sep)
  }

  lemma FirstSegmentUnique(v: string, w: string, s: string, sep: char)
    requires IsFirstSegment(v, s, sep) && IsFirstSegment(w, s, sep)
    ensures v == w
  {
  }

  lemma LastSegmentUnique(v: string, w: string, s: string, sep: char)
    requires IsLastSegment(v, s, sep) && IsLastSegment(w, s, sep)
    ensures v == w
  {
  }

  /**
   * `parse_instance_name` (metadata.rs:263-270): the text before the first
   * `.`, which must not be empty. It succeeds exactly when `s` is non-empty
   * and does not start with `.`; otherwise the error is tagged "instance name".
   */
  function ParseInstanceName(s: string): (r: Result<string>)
    ensures r.Ok? <==> s != "" && s[0] != '.'
    ensures r.Ok? ==> r.value != "" && IsFirstSegment(r.value, s, '.')
    ensures r.Err? ==> r.error == FromKind(MetadataParse(INSTANCE_NAME_TAG))
  {
    FirstPiece(s, '.');
    var first := SplitOn(s, '.')[0];
    if first != "" then Ok(first) else Err(FromKind(MetadataParse(INSTANCE_NAME_TAG)))
  }

  /**
   * `parse_zone` (metadata.rs:272-279): the text after the last `/`, which
   * must not be empty. It succeeds exactly when `s` is non-empty and does not
   * end with `/`; otherwise the error is tagged "zone".
   */
  function ParseZone(s: string): (r: Result<string>)
    ensures r.Ok? <==> s != "" && s[|s| - 1] != '/'
    ensures r.Ok? ==> r.value != "" && IsLastSegment(r.value, s, '/')
    ensures r.Err? ==> r.error == FromKind(MetadataParse(ZONE_TAG))
  {
    LastPiece(s, '/');
    var parts := SplitOn(s, '/');
    var last := parts[|parts| - 1];
    if last != "" then Ok(last) else Err(FromKind(MetadataParse(ZONE_TAG)))
  }

  /** Text without the separator, followed by the separator, is the first piece of a split. */
  lemma SplitFirstOf(v: string, tail: string, sep: char)
    requires sep !in v && |tail| > 0 && tail[0] == sep
    ensures SplitOn(v + tail, sep)[0] == v
  {
    var s := v + tail;
    FirstPiece(s, sep);
    assert IsFirstSegment(v, s, sep) by {
      assert s[|v|] == tail[0];
    }
    FirstSegmentUnique(SplitOn(s, sep)[0], v, s, sep);
  }

  /** The text after a separator that is followed by no other is the last segment. */
  lemma LastSegmentAfter(p: string, z: string, sep: char)
    requires sep !in z
    ensures IsLastSegment(z, p + [sep] + z, sep)
  {
    var s := p + [sep] + z;
    assert s[|s| - |z|..] == z;
    assert s[|s| - |z| - 1] == sep;
  }

  /** A non-empty name without a `.`, followed by a `.` and anything, parses to that name. */
  lemma ParseInstanceNameBefore(v: string, tail: string)
    requires v != [] && '.' !in v && |tail| > 0 && tail[0] == '.'
    ensures ParseInstanceName(v + tail) == Ok(v)
  {
    var s := v + tail;
    assert IsFirstSegment(v, s, '.') by {
      assert s[|v|] == tail[0];
    }
    FirstSegmentUnique(ParseInstanceName(s).value, v, s, '.');
  }

  /** A non-empty segment without a `/`, after a `/`, is the zone. */
  lemma ParseZoneAfter(p: string, z: string)
    requires z != [] && '/' !in z
    ensures ParseZone(p + ['/'] + z) == Ok(z)
  {
    var s := p + ['/'] + z;
    LastSegmentAfter(p, z, '/');
    assert s[|s| - 1] == z[|z| - 1];
    LastSegmentUnique(ParseZone(s).value, z, s, '/');
  }

  /** The unit test at metadata.rs:361-373. */
  lemma InstanceNameExamples()
    ensures ParseInstanceName("abc.c.ef.internal") == Ok("abc")
    ensures ParseInstanceName("") == Err(FromKind(MetadataParse(INSTANCE_NAME_TAG)))
  {
    assert "abc.c.ef.internal" == "abc" + ".c.ef.internal";
    ParseInstanceNameBefore("abc", ".c.ef.internal");
  }

  /** The unit test at metadata.rs:375-387. */
  lemma ZoneExamples()
    ensures ParseZone("projects/123/zones/asia-northeast1-a") == Ok("asia-northeast1-a")
    ensures ParseZone("") == Err(FromKind(MetadataParse(ZONE_TAG)))
  {
    assert "projects/123/zones/asia-northeast1-a" == "projects/123/zones" + ['/'] + "asia-northeast1-a";
    ParseZoneAfter("projects/123/zones", "asia-northeast1-a");
  }
}
