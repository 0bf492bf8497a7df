/**
 String fields of a network block in the configuration file: how they are printed and read back
 (hostap08/wpa_supplicant/config.c and config_file.c).
 */
module ConfigLine {
  import opened Wrappers
  import opened OctetNumbers

  type Text = seq<Octet>

  const TAB: Octet := 9
  const NEWLINE: Octet := 10
  const RETURN: Octet := 13
  const SPACE: Octet := 32
  const QUOTE: Octet := 34
  const HASH: Octet := 35
  const EQUALS: Octet := 61

  // ---- C strings

  /** strchr: the position of the first c, or the length. */
  function Find(s: Text, c: Octet): (k: nat)
    ensures k <= |s| && c !in s[..k] && (k < |s| ==> s[k] == c)
  {
    if s == [] || s[0] == c then 0
    else
      var k := 1 + Find(s[1..], c);
      assert s[..k] == [s[0]] + s[1..][..k - 1];
      k
  }

  lemma {:induction false} FindIs(s: Text, c: Octet, k: nat)
    requires k <= |s| && c !in s[..k] && (k < |s| ==> s[k] == c)
    ensures Find(s, c) == k
  {
    if k > 0 {
      assert s[..k] == [s[0]] + s[1..][..k - 1];
      FindIs(s[1..], c, k - 1);
    }
  }

  /** strrchr */
  function FindLast(s: Text, c: Octet): (r: Option<nat>)
    ensures r.Some? ==> r.value < |s| && s[r.value] == c && c !in s[r.value + 1..]
    ensures r == None ==> c !in s
  {
    if s == [] then None
    else if s[|s| - 1] == c then Some(|s| - 1)
    else
      var r := FindLast(s[..|s| - 1], c);
      assert s == s[..|s| - 1] + [s[|s| - 1]];
      assert r.Some? ==> s[r.value + 1..] == s[..|s| - 1][r.value + 1..] + [s[|s| - 1]];
      r
  }

  lemma {:induction false} FindLastIs(s: Text, c: Octet, k: nat)
    requires k < |s| && s[k] == c && c !in s[k + 1..]
    ensures FindLast(s, c) == Some(k)
  {
    var n := |s| - 1;
    if k < n {
      assert s[k + 1..] == s[..n][k + 1..] + [s[n]];
      FindLastIs(s[..n], c, k);
    }
  }

  /** The octets before the terminating zero. */
  function CString(s: Text): Text { s[..Find(s, 0)] }

  // ---- wpa_config_get_line

  const LINE_BUFFER := 256

  /** fgets: what one call reads. */
  function Chunk(stream: Text, size: nat): (r: Text)
    requires size >= 2
    ensures |r| <= |stream| && r == stream[..|r|] && (stream != [] ==> r != [])
  {
    var n := Find(stream, NEWLINE);
    if n < |stream| && n + 1 <= size - 1 then stream[..n + 1]
    else if |stream| <= size - 1 then stream else stream[..size - 1]
  }

  predicate IsBlank(c: Octet) { c == SPACE || c == TAB || c == RETURN }

  function SkipBlanks(s: Text): (r: Text)
    ensures |r| <= |s|
  {
    if s != [] && IsBlank(s[0]) then SkipBlanks(s[1..]) else s
  }

  /** Where a comment may start: after the last quotation mark, if there are two. */
  function CommentStart(s: Text): (k: nat)
    ensures k <= |s|
  {
    var q := Find(s, QUOTE);
    if q == |s| then 0
    else match FindLast(s[q + 1..], QUOTE)
      case None => 0
      case Some(k) => q + 1 + k
  }

  function StripComment(s: Text): (r: Text)
    ensures |r| <= |s| && r == s[..|r|]
  {
    var start := CommentStart(s);
    s[..start + Find(s[start..], HASH)]
  }

  function TrimEnd(s: Text): (r: Text)
    ensures |r| <= |s| && r == s[..|r|]
  {
    if |s| > 1 && (IsBlank(s[|s| - 1]) || s[|s| - 1] == NEWLINE) then TrimEnd(s[..|s| - 1]) else s
  }

  /** What is left of a line, unless it is empty or a comment. */
  function LineContent(chunk: Text): Option<Text> {
    var s := SkipBlanks(CString(chunk));
    if s == [] || s[0] == HASH || s[0] == NEWLINE then None else Some(TrimEnd(StripComment(s)))
  }

  /** The next line with content, and the stream after it. */
  function NextLine(stream: Text): Option<(Text, Text)> {
    if stream == [] then None
    else
      var chunk := Chunk(stream, LINE_BUFFER);
      var rest := stream[|chunk|..];
      match LineContent(chunk)
      case None => NextLine(rest)
      case Some(line) => Some((line, rest))
  }

  // ---- wpa_config_read_network and wpa_config_parse_str

  datatype Assignment = BlockEnd | Invalid | Assign(name: Text, text: Text)

  function SplitLine(line: Text): Assignment {
    if line == [125] then BlockEnd
    else
      var k := Find(line, EQUALS);
      if k == |line| then Invalid
      else
        var text := line[k + 1..];
        if text != [] && text[0] == QUOTE && QUOTE !in text[1..] then Invalid else Assign(line[..k], text)
  }

  function HexDigit(c: Octet): (d: int)
    ensures -1 <= d < 16
  {
    if 48 <= c <= 57 then c - 48
    else if 97 <= c <= 102 then c - 97 + 10
    else if 65 <= c <= 70 then c - 65 + 10
    else -1
  }

  /** hexstr2bin over the whole text */
  function FromHex(s: Text): (r: Option<Text>)
    requires |s| % 2 == 0
    ensures r.Some? ==> 2 * |r.value| == |s|
  {
    if s == [] then Some([])
    else if HexDigit(s[0]) < 0 || HexDigit(s[1]) < 0 then None
    else match FromHex(s[2..])
      case None => None
      case Some(r) => Some([16 * HexDigit(s[0]) + HexDigit(s[1])] + r)
  }

  function ParseString(text: Text): Option<Text> {
    if text != [] && text[0] == QUOTE then
      match FindLast(text[1..], QUOTE)
      case None => None
      case Some(k) => if k + 1 != |text| - 1 then None else Some(text[1..][..k])
    else if |text| % 2 == 1 then None
    else FromHex(text)
  }

  datatype Field = Field(name: Text, minLen: nat, maxLen: nat)

  datatype FieldValue = Unset | Value(value: Text) | Error

  /** "NULL" */
  const NULL_TEXT: Text := [78, 85, 76, 76]

  predicate WithinLimits(f: Field, v: Text) {
    (f.minLen == 0 || |v| >= f.minLen) && (f.maxLen == 0 || |v| <= f.maxLen)
  }

  function ParseStr(f: Field, text: Text): FieldValue {
    if text == NULL_TEXT then Unset
    else match ParseString(text)
      case None => Error
      case Some(v) => if WithinLimits(f, v) then Value(v) else Error
  }

  // ---- Printing

  predicate Printable(c: Octet) { 32 <= c < 127 }

  function LowerDigit(d: nat): Octet
    requires d < 16
  {
    if d < 10 then 48 + d else 97 + d - 10
  }

  function ToHex(v: Text): (r: Text)
    ensures |r| == 2 * |v|
  {
    if v == [] then [] else [LowerDigit(v[0] / 16), LowerDigit(v[0] % 16)] + ToHex(v[1..])
  }

  predicate AllPrintable(v: Text) { forall k :: 0 <= k < |v| ==> Printable(v[k]) }

  function WriteString(v: Text): (r: Text)
    ensures r != []
  {
    if AllPrintable(v) then [QUOTE] + v + [QUOTE] else ToHex(v)
  }

  /** Without the newline. */
  function PrintedLine(f: Field, v: Text): Text {
    [TAB] + f.name + [EQUALS] + WriteString(v)
  }

  // ---- Printing and reading back

  lemma {:induction false} HexRoundTrip(v: Text)
    ensures FromHex(ToHex(v)) == Some(v)
  {
    if v != [] {
      HexRoundTrip(v[1..]);
      var s := ToHex(v);
      assert s[2..] == ToHex(v[1..]);
      assert HexDigit(s[0]) == v[0] / 16 && HexDigit(s[1]) == v[0] % 16;
      assert v == [16 * (v[0] / 16) + v[0] % 16] + v[1..];
    }
  }

  predicate IsHexText(c: Octet) { 48 <= c <= 57 || 97 <= c <= 102 }

  lemma {:induction false} ToHexText(v: Text)
    ensures forall c :: c in ToHex(v) ==> IsHexText(c)
  {
    if v != [] {
      ToHexText(v[1..]);
    }
  }

  /** Every octet of the printed text is printable. */
  lemma WriteStringText(v: Text)
    ensures forall c :: c in WriteString(v) ==> Printable(c)
    ensures AllPrintable(v) || (QUOTE !in WriteString(v) && HASH !in WriteString(v))
  {
    ToHexText(v);
  }

  lemma ParseWritten(v: Text)
    ensures ParseString(WriteString(v)) == Some(v)
  {
    var t := WriteString(v);
    if AllPrintable(v) {
      assert t[1..] == v + [QUOTE] && t[1..][..|v|] == v;
      FindLastIs(t[1..], QUOTE, |v|);
    } else {
      ToHexText(v);
      HexRoundTrip(v);
    }
  }

  /** A field name as in the table of network fields. */
  predicate IsName(name: Text) {
    name != [] && |name| <= 250 && forall k :: 0 <= k < |name| ==> NameOctet(name[k])
  }

  predicate NameOctet(c: Octet) { 97 <= c <= 122 || 48 <= c <= 57 || c == 95 }

  /** name=text */
  function Body(f: Field, v: Text): Text {
    f.name + [EQUALS] + WriteString(v)
  }

  lemma BodyText(f: Field, v: Text)
    requires IsName(f.name)
    ensures forall c :: c in Body(f, v) ==> Printable(c)
    ensures var b := Body(f, v); !IsBlank(b[0]) && b[0] != HASH && b[0] != QUOTE && b[0] != 125
  {
    WriteStringText(v);
    forall c | c in f.name ensures Printable(c) {
      var k :| 0 <= k < |f.name| && f.name[k] == c;
    }
  }

  /** A comment mark inside quotation marks is left alone. */
  lemma NoCommentQuoted(pre: Text, v: Text, end: Text)
    requires QUOTE !in pre && QUOTE !in end && HASH !in end
    ensures StripComment(pre + [QUOTE] + v + [QUOTE] + end) == pre + [QUOTE] + v + [QUOTE] + end
  {
    var s := pre + [QUOTE] + v + [QUOTE] + end;
    var start := |pre| + 1 + |v|;
    QuotedParts(pre, v, end, s);
    FindIs(s, QUOTE, |pre|);
    FindLastIs(s[|pre| + 1..], QUOTE, |v|);
    FindIs(s[start..], HASH, |s| - start);
  }

  lemma QuotedParts(pre: Text, v: Text, end: Text, s: Text)
    requires s == pre + [QUOTE] + v + [QUOTE] + end && QUOTE !in pre && QUOTE !in end && HASH !in end
    ensures s[..|pre|] == pre && s[|pre|] == QUOTE
    ensures var tail := s[|pre| + 1..]; |tail| > |v| && tail[|v|] == QUOTE && tail[|v| + 1..] == end
    ensures HASH !in s[|pre| + 1 + |v|..]
  {
    assert s[|pre| + 1 + |v|..] == [QUOTE] + end;
  }

  lemma NoCommentPlain(s: Text)
    requires QUOTE !in s && HASH !in s
    ensures StripComment(s) == s
  {
    FindIs(s, QUOTE, |s|);
    assert s[0..] == s;
    FindIs(s, HASH, |s|);
  }

  lemma JoinQuoted(pre: Text, v: Text, end: Text)
    ensures pre + ([QUOTE] + v + [QUOTE]) + end == pre + [QUOTE] + v + [QUOTE] + end
  {
  }

  /** The comment stripper sees nothing to remove in the printed text. */
  lemma NoComment(f: Field, v: Text, end: Text)
    requires IsName(f.name) && (end == [] || end == [NEWLINE])
    ensures StripComment(Body(f, v) + end) == Body(f, v) + end
  {
    var pre, t := f.name + [EQUALS], WriteString(v);
    NameHas(f.name, QUOTE);
    NameHas(f.name, HASH);
    if AllPrintable(v) {
      NoCommentQuoted(pre, v, end);
      JoinQuoted(pre, v, end);
    } else {
      WriteStringText(v);
      NoCommentPlain(pre + t + end);
    }
  }

  lemma NameHas(name: Text, c: Octet)
    requires IsName(name) && !NameOctet(c)
    ensures c !in name
  {
  }

  lemma LastOfBody(f: Field, v: Text)
    requires IsName(f.name)
    ensures var b := Body(f, v); b[|b| - 1] == WriteString(v)[|WriteString(v)| - 1]
    ensures var b := Body(f, v); !IsBlank(b[|b| - 1]) && b[|b| - 1] != NEWLINE
  {
    var t := WriteString(v);
    if !AllPrintable(v) {
      ToHexText(v);
      assert t[|t| - 1] in t;
    }
  }

  lemma ContentOfPrinted(f: Field, v: Text, end: Text)
    requires IsName(f.name) && (end == [] || end == [NEWLINE])
    ensures LineContent(PrintedLine(f, v) + end) == Some(Body(f, v))
  {
    var b := Body(f, v);
    BodyText(f, v);
    PrintedIs(f, v, end);
    NoZero([TAB] + (b + end));
    SkipTab(b + end);
    NoComment(f, v, end);
    LastOfBody(f, v);
    TrimNewline(b, end);
  }

  lemma PrintedIs(f: Field, v: Text, end: Text)
    ensures PrintedLine(f, v) + end == [TAB] + (Body(f, v) + end)
  {
  }

  lemma NoZero(s: Text)
    requires 0 !in s
    ensures CString(s) == s
  {
    FindIs(s, 0, |s|);
  }

  lemma SkipTab(s: Text)
    requires s != [] && !IsBlank(s[0])
    ensures SkipBlanks([TAB] + s) == s
  {
    assert ([TAB] + s)[1..] == s;
  }

  lemma TrimNewline(b: Text, end: Text)
    requires b != [] && !IsBlank(b[|b| - 1]) && b[|b| - 1] != NEWLINE && (end == [] || end == [NEWLINE])
    ensures TrimEnd(b + end) == b
  {
    if end == [NEWLINE] {
      assert (b + end)[..|b|] == b;
    } else {
      assert b + end == b;
    }
  }

  lemma SplitBody(f: Field, v: Text)
    requires IsName(f.name)
    ensures SplitLine(Body(f, v)) == Assign(f.name, WriteString(v))
  {
    var b, k, t := Body(f, v), |f.name|, WriteString(v);
    NameHas(f.name, EQUALS);
    assert b[..k] == f.name && b[k] == EQUALS && b[k + 1..] == t;
    FindIs(b, EQUALS, k);
    if AllPrintable(v) {
      assert t[1..] == v + [QUOTE];
    } else {
      ToHexText(v);
    }
  }

  /** The value that reading the next line of the stream gives a field. */
  function ReadField(f: Field, stream: Text): Option<FieldValue> {
    match NextLine(stream)
    case None => None
    case Some(next) => FieldOfLine(f, next.0)
  }

  function FieldOfLine(f: Field, line: Text): Option<FieldValue> {
    match SplitLine(line)
    case Assign(name, text) => if name == f.name then Some(ParseStr(f, text)) else None
    case _ => None
  }

  lemma FieldOfBody(f: Field, v: Text)
    requires IsName(f.name) && WithinLimits(f, v)
    ensures FieldOfLine(f, Body(f, v)) == Some(Value(v))
  {
    SplitBody(f, v);
    ParseWritten(v);
    if !AllPrintable(v) {
      ToHexText(v);
      assert NULL_TEXT[0] in NULL_TEXT;
    }
  }

  /** A text cut short is never read as the same value. */
  lemma CutTextDiffers(v: Text, k: nat)
    requires v != [] && k < |WriteString(v)|
    ensures ParseString(WriteString(v)[..k]) != Some(v)
  {
    if !AllPrintable(v) {
      ToHexText(v);
    }
  }

  lemma CutLineDiffers(f: Field, v: Text, n: nat)
    requires IsName(f.name) && v != [] && n < |Body(f, v)|
    ensures FieldOfLine(f, Body(f, v)[..n]) != Some(Value(v))
  {
    var line, t := Body(f, v)[..n], WriteString(v);
    match SplitLine(line)
    case Assign(name, text) =>
      if name == f.name {
        var k := n - |name| - 1;
        assert text == t[..k];
        CutTextDiffers(v, k);
      }
    case _ =>
  }

  lemma PrintedHasNoNewline(f: Field, v: Text)
    requires IsName(f.name)
    ensures NEWLINE !in PrintedLine(f, v) && 0 !in PrintedLine(f, v)
  {
    BodyText(f, v);
    PrintedIs(f, v, []);
    assert PrintedLine(f, v) + [] == PrintedLine(f, v);
    assert Body(f, v) + [] == Body(f, v);
  }

  /** One fgets reads the line with its newline, the line alone, or a part of it. */
  lemma ChunkOfLine(p: Text, rest: Text)
    requires NEWLINE !in p
    ensures var stream := p + [NEWLINE] + rest;
      Chunk(stream, LINE_BUFFER) ==
      if |p| + 1 < LINE_BUFFER then p + [NEWLINE] else if |p| < LINE_BUFFER then p else p[..LINE_BUFFER - 1]
  {
    var stream := p + [NEWLINE] + rest;
    assert stream[..|p|] == p && stream[|p|] == NEWLINE;
    FindIs(stream, NEWLINE, |p|);
    assert stream[..|p| + 1] == p + [NEWLINE];
    assert |p| >= LINE_BUFFER ==> stream[..LINE_BUFFER - 1] == p[..LINE_BUFFER - 1];
  }

  lemma ContentOfCut(f: Field, v: Text)
    requires IsName(f.name) && |PrintedLine(f, v)| >= LINE_BUFFER
    ensures var c := LineContent(PrintedLine(f, v)[..LINE_BUFFER - 1]);
      c.Some? && |c.value| < |Body(f, v)| && c.value == Body(f, v)[..|c.value|]
  {
    var b, n := Body(f, v), LINE_BUFFER - 1;
    var chunk := PrintedLine(f, v)[..n];
    PrintedHasNoNewline(f, v);
    NoZero(chunk);
    assert chunk == [TAB] + b[..n - 1] by {
      PrintedIs(f, v, []);
      assert PrintedLine(f, v) + [] == PrintedLine(f, v) && b + [] == b;
    }
    BodyText(f, v);
    SkipTab(b[..n - 1]);
    PrefixOfPrefix(b, n - 1);
  }

  lemma PrefixOfPrefix(b: Text, n: nat)
    requires n <= |b|
    ensures var r := TrimEnd(StripComment(b[..n])); |r| <= n && r == b[..|r|]
  {
    var s := StripComment(b[..n]);
    var r := TrimEnd(s);
    assert b[..n][..|s|] == b[..|s|];
    assert b[..|s|][..|r|] == b[..|r|];
  }

  lemma NextLineOf(stream: Text, line: Text)
    requires stream != [] && LineContent(Chunk(stream, LINE_BUFFER)) == Some(line)
    ensures NextLine(stream) == Some((line, stream[|Chunk(stream, LINE_BUFFER)|..]))
  {
  }

  /**
   A value of any octets is read back exactly as it was printed if and only if the line without its
   newline is shorter than the line buffer.
   */
  lemma LineRoundTrip(f: Field, v: Text, rest: Text)
    requires IsName(f.name) && WithinLimits(f, v)
    ensures ReadField(f, PrintedLine(f, v) + [NEWLINE] + rest) == Some(Value(v)) <==>
      |PrintedLine(f, v)| < LINE_BUFFER
  {
    var p := PrintedLine(f, v);
    var stream := p + [NEWLINE] + rest;
    PrintedHasNoNewline(f, v);
    ChunkOfLine(p, rest);
    if |p| < LINE_BUFFER {
      var end := if |p| + 1 < LINE_BUFFER then [NEWLINE] else [];
      assert p + [] == p;
      ContentOfPrinted(f, v, end);
      NextLineOf(stream, Body(f, v));
      FieldOfBody(f, v);
    } else {
      ContentOfCut(f, v);
      var line := LineContent(p[..LINE_BUFFER - 1]).value;
      NextLineOf(stream, line);
      assert v != [];
      CutLineDiffers(f, v, |line|);
    }
  }

  /** The lines after it are read as if the printed line had not been there. */
  lemma RestUnaffected(f: Field, v: Text, rest: Text)
    requires IsName(f.name) && |PrintedLine(f, v)| < LINE_BUFFER
    ensures var next := NextLine(PrintedLine(f, v) + [NEWLINE] + rest);
      next.Some? && NextLine(next.value.1) == NextLine(rest)
  {
    var p := PrintedLine(f, v);
    PrintedHasNoNewline(f, v);
    ChunkOfLine(p, rest);
    assert p + [] == p;
    if |p| + 1 < LINE_BUFFER {
      ContentOfPrinted(f, v, [NEWLINE]);
      AfterChunk(p, rest, 1, Body(f, v));
    } else {
      ContentOfPrinted(f, v, []);
      AfterChunk(p, rest, 0, Body(f, v));
      BlankLine(rest);
    }
  }

  lemma AfterChunk(p: Text, rest: Text, n: nat, line: Text)
    requires n <= 1
    requires var stream := p + [NEWLINE] + rest;
      |Chunk(stream, LINE_BUFFER)| == |p| + n && LineContent(Chunk(stream, LINE_BUFFER)) == Some(line)
    ensures NextLine(p + [NEWLINE] + rest) == Some((line, if n == 1 then rest else [NEWLINE] + rest))
  {
    var stream := p + [NEWLINE] + rest;
    assert stream[|p| + 1..] == rest && stream[|p|..] == [NEWLINE] + rest;
    NextLineOf(stream, line);
  }

  lemma BlankLine(rest: Text)
    ensures NextLine([NEWLINE] + rest) == NextLine(rest)
  {
    var stream := [NEWLINE] + rest;
    FindIs(stream, NEWLINE, 0);
    assert Chunk(stream, LINE_BUFFER) == [NEWLINE] by { assert stream[..1] == [NEWLINE]; }
    NoZero([NEWLINE]);
    assert stream[1..] == rest;
  }

  // ---- Lines as people write them

  /** Spaces, tabulators and carriage returns. */
  predicate AllBlank(s: Text) { forall c :: c in s ==> c == 32 || c == 9 || c == 13 }

  lemma {:induction false} SkipAllBlanks(pre: Text, s: Text)
    requires AllBlank(pre) && (s == [] || !IsBlank(s[0]))
    ensures SkipBlanks(pre + s) == s
  {
    if pre == [] {
      assert pre + s == s;
    } else {
      assert (pre + s)[1..] == pre[1..] + s;
      assert pre[0] in pre;
      assert forall c :: c in pre[1..] ==> c in pre;
      SkipAllBlanks(pre[1..], s);
    }
  }

  lemma {:induction false} TrimAllBlanks(b: Text, post: Text)
    requires b != [] && !IsBlank(b[|b| - 1]) && b[|b| - 1] != NEWLINE
    requires forall c :: c in post ==> IsBlank(c) || c == NEWLINE
    ensures TrimEnd(b + post) == b
    decreases |post|
  {
    if post == [] {
      assert b + post == b;
    } else {
      var n := |post| - 1;
      assert (b + post)[..|b| + n] == b + post[..n];
      assert post[n] in post;
      TrimAllBlanks(b, post[..n]);
    }
  }

  lemma QuotedSlices(pre: Text, v: Text, end: Text, s: Text)
    requires s == pre + ([QUOTE] + (v + ([QUOTE] + end)))
    ensures s[..|pre|] == pre && s[|pre|] == QUOTE && s[|pre| + 1..] == v + ([QUOTE] + end)
    ensures s[|pre| + 1 + |v|..] == [QUOTE] + end
  {
  }

  lemma QuotedTail(pre: Text, v: Text, end: Text, s: Text)
    requires s == pre + ([QUOTE] + (v + ([QUOTE] + end))) && QUOTE !in pre && QUOTE !in end
    ensures CommentStart(s) == |pre| + 1 + |v| && s[|pre| + 1 + |v|..] == [QUOTE] + end
  {
    QuotedSlices(pre, v, end, s);
    FindIs(s, QUOTE, |pre|);
    var tail := v + ([QUOTE] + end);
    assert tail[|v|] == QUOTE && tail[|v| + 1..] == end;
    FindLastIs(tail, QUOTE, |v|);
  }

  lemma Regroup(a: Text, b: Text, c: Text, d: Text, e: Text)
    ensures a + b + c + d + e == a + (b + (c + (d + e)))
  {
  }

  lemma FirstHash(post: Text, comment: Text)
    requires HASH !in post
    ensures Find([QUOTE] + (post + ([HASH] + comment)), HASH) == 1 + |post|
  {
    var t := [QUOTE] + (post + ([HASH] + comment));
    assert t[..1 + |post|] == [QUOTE] + post && t[1 + |post|] == HASH;
    FindIs(t, HASH, 1 + |post|);
  }

  lemma StripAt(s: Text, start: nat, n: nat, r: Text)
    requires CommentStart(s) == start && Find(s[start..], HASH) == n && s[..start + n] == r
    ensures StripComment(s) == r
  {
  }

  lemma QuotedPrefix(pre: Text, v: Text, post: Text, more: Text, s: Text, r: Text)
    requires s == pre + ([QUOTE] + (v + ([QUOTE] + (post + more)))) && r == pre + [QUOTE] + v + [QUOTE] + post
    ensures |r| == |pre| + 1 + |v| + 1 + |post| && s[..|r|] == r
  {
    assert s == r + more;
  }

  /** A comment behind a quoted value: the quotation marks in the value do not matter. */
  lemma CommentAfterQuoted(pre: Text, v: Text, post: Text, comment: Text, s: Text, r: Text)
    requires QUOTE !in pre && QUOTE !in post && HASH !in post && QUOTE !in comment
    requires s == pre + ([QUOTE] + (v + ([QUOTE] + (post + ([HASH] + comment))))) && r == pre + [QUOTE] + v + [QUOTE] + post
    ensures StripComment(s) == r
  {
    QuotedTail(pre, v, post + ([HASH] + comment), s);
    FirstHash(post, comment);
    QuotedPrefix(pre, v, post, [HASH] + comment, s, r);
    StripAt(s, |pre| + 1 + |v|, 1 + |post|, r);
  }

  lemma CommentAfterPlain(b: Text, post: Text, comment: Text)
    requires QUOTE !in b && HASH !in b && QUOTE !in post && HASH !in post && QUOTE !in comment
    ensures StripComment(b + (post + [HASH] + comment)) == b + post
  {
    var s := b + (post + [HASH] + comment);
    FindIs(s, QUOTE, |s|);
    assert s[0..] == s && s[..|b| + |post|] == b + post;
    FindIs(s, HASH, |b| + |post|);
  }

  lemma CommentIsStripped(f: Field, v: Text, post: Text, comment: Text)
    requires IsName(f.name) && QUOTE !in post && HASH !in post && QUOTE !in comment
    ensures StripComment(Body(f, v) + (post + [HASH] + comment)) == Body(f, v) + post
  {
    var pre, t := f.name + [EQUALS], WriteString(v);
    NameHas(f.name, QUOTE);
    NameHas(f.name, HASH);
    if AllPrintable(v) {
      var end := post + ([HASH] + comment);
      assert end == post + [HASH] + comment;
      JoinQuoted(pre, v, end);
      Regroup(pre, [QUOTE], v, [QUOTE], end);
      JoinQuoted(pre, v, post);
      CommentAfterQuoted(pre, v, post, comment, Body(f, v) + end, Body(f, v) + post);
    } else {
      WriteStringText(v);
      CommentAfterPlain(pre + t, post, comment);
    }
  }

  lemma BlankHas(s: Text, c: Octet)
    requires AllBlank(s) && !IsBlank(c)
    ensures c !in s
  {
  }

  /**
   A line reads the same with any blanks before and after it and with a comment behind it, if the comment has no
   quotation mark; a comment mark in a quoted value is part of the value.
   */
  lemma DecoratedLine(f: Field, v: Text, pre: Text, post: Text, comment: Text)
    requires IsName(f.name) && AllBlank(pre) && AllBlank(post) && QUOTE !in comment && 0 !in comment
    ensures LineContent(pre + (Body(f, v) + (post + [HASH] + comment))) == Some(Body(f, v))
  {
    var b, end := Body(f, v), post + [HASH] + comment;
    BodyText(f, v);
    BlankHas(pre, 0);
    BlankHas(post, 0);
    BlankHas(post, QUOTE);
    BlankHas(post, HASH);
    NoZero(pre + (b + end));
    assert (b + end)[0] == b[0];
    SkipAllBlanks(pre, b + end);
    CommentIsStripped(f, v, post, comment);
    LastOfBody(f, v);
    TrimAllBlanks(b, post);
  }

  /** A line of blanks, or one whose first other octet begins a comment, is skipped. */
  lemma EmptyLine(pre: Text, rest: Text)
    requires AllBlank(pre) && (rest == [] || rest[0] == NEWLINE || rest[0] == HASH)
    ensures LineContent(pre + rest) == None
  {
    BlankHas(pre, 0);
    var s := pre + rest;
    var n := Find(s, 0);
    ZeroAfter(pre, rest, n);
    if n > |pre| {
      assert s[..n] == pre + rest[..n - |pre|];
      SkipAllBlanks(pre, rest[..n - |pre|]);
    } else {
      assert s[..n] == pre + [];
      SkipAllBlanks(pre, []);
    }
  }

  lemma ZeroAfter(pre: Text, rest: Text, n: nat)
    requires 0 !in pre && n == Find(pre + rest, 0)
    ensures n >= |pre|
  {
  }

  /** A value is printed in quotation marks exactly if all of it is printable ASCII. */
  lemma QuotedIff(v: Text)
    ensures WriteString(v)[0] == QUOTE <==> forall c :: c in v ==> 32 <= c <= 126
  {
    ToHexText(v);
    if !AllPrintable(v) {
      assert ToHex(v)[0] in ToHex(v);
      var k :| 0 <= k < |v| && !Printable(v[k]);
      assert v[k] in v;
    } else {
      forall c | c in v ensures 32 <= c <= 126 {
        var k :| 0 <= k < |v| && v[k] == c;
        assert Printable(v[k]);
      }
    }
  }

  // ---- What a line and a text mean

  /** A line assigns a text to a name if and only if it is the two with the first equals sign between them. */
  lemma SplitIff(line: Text, name: Text, text: Text)
    ensures SplitLine(line) == Assign(name, text) <==>
      && line == name + [EQUALS] + text && EQUALS !in name
      && !(text != [] && text[0] == QUOTE && QUOTE !in text[1..])
  {
    var k := Find(line, EQUALS);
    if k < |line| {
      assert line == line[..k] + [EQUALS] + line[k + 1..];
    }
    if line == name + [EQUALS] + text && EQUALS !in name {
      assert line[..|name|] == name && line[|name|] == EQUALS && line[|name| + 1..] == text;
      FindIs(line, EQUALS, |name|);
    }
  }

  const DIGITS: Text := [48, 49, 50, 51, 52, 53, 54, 55, 56, 57, 97, 98, 99, 100, 101, 102]
  const CAPITALS: Text := [48, 49, 50, 51, 52, 53, 54, 55, 56, 57, 65, 66, 67, 68, 69, 70]

  lemma HexDigitIs(c: Octet, d: nat)
    requires d < 16
    ensures HexDigit(c) == d <==> c == DIGITS[d] || c == CAPITALS[d]
  {
  }

  /** Octet k of the value is digits 2k and 2k + 1 of the text. */
  predicate IsHexOf(t: Text, v: Text) {
    |t| == 2 * |v| && forall k :: 0 <= k < |v| ==> IsHexPair(t[2 * k], t[2 * k + 1], v[k])
  }

  predicate IsHexPair(a: Octet, b: Octet, x: Octet) {
    (a == DIGITS[x / 16] || a == CAPITALS[x / 16]) && (b == DIGITS[x % 16] || b == CAPITALS[x % 16])
  }

  lemma HexPairIs(a: Octet, b: Octet, x: Octet)
    ensures IsHexPair(a, b, x) <==> HexDigit(a) >= 0 && HexDigit(b) >= 0 && x == 16 * HexDigit(a) + HexDigit(b)
  {
    HexDigitIs(a, x / 16);
    HexDigitIs(b, x % 16);
  }

  lemma {:induction false} FromHexIff(t: Text, v: Text)
    requires |t| % 2 == 0
    ensures FromHex(t) == Some(v) <==> IsHexOf(t, v)
  {
    if t != [] && v != [] {
      FromHexIff(t[2..], v[1..]);
      HexPairIs(t[0], t[1], v[0]);
      HexOfRest(t, v);
      assert v == [v[0]] + v[1..];
    }
  }

  lemma HexOfRest(t: Text, v: Text)
    requires |t| >= 2 && v != []
    ensures IsHexOf(t, v) <==> IsHexPair(t[0], t[1], v[0]) && IsHexOf(t[2..], v[1..])
  {
    if IsHexPair(t[0], t[1], v[0]) && IsHexOf(t[2..], v[1..]) {
      forall k | 0 <= k < |v| ensures IsHexPair(t[2 * k], t[2 * k + 1], v[k]) {
        if k > 0 {
          assert IsHexPair(t[2..][2 * (k - 1)], t[2..][2 * (k - 1) + 1], v[1..][k - 1]);
        }
      }
    }
    if IsHexOf(t, v) {
      assert IsHexPair(t[2 * 0], t[2 * 0 + 1], v[0]);
      forall k | 0 <= k < |v[1..]| ensures IsHexPair(t[2..][2 * k], t[2..][2 * k + 1], v[1..][k]) {
        assert IsHexPair(t[2 * (k + 1)], t[2 * (k + 1) + 1], v[k + 1]);
      }
    }
  }

  /** A text stands for a value if and only if it is the value in quotation marks, or in hexadecimal digits. */
  lemma ParseIff(t: Text, v: Text)
    ensures ParseString(t) == Some(v) <==> t == [QUOTE] + v + [QUOTE] || IsHexOf(t, v)
  {
    if t == [QUOTE] + v + [QUOTE] {
      assert t[1..] == v + [QUOTE] && t[1..][..|v|] == v;
      FindLastIs(t[1..], QUOTE, |v|);
    }
    if t != [] && t[0] == QUOTE {
      QuoteIsNoDigit(t, v);
      match FindLast(t[1..], QUOTE)
      case None =>
      case Some(k) =>
        if k + 1 == |t| - 1 {
          assert t == [QUOTE] + t[1..][..k] + [QUOTE];
        }
    } else if |t| % 2 == 0 {
      FromHexIff(t, v);
    }
  }

  lemma QuoteIsNoDigit(t: Text, v: Text)
    requires t != [] && t[0] == QUOTE
    ensures !IsHexOf(t, v)
  {
    if |t| >= 2 && v != [] {
      HexPairIs(t[0], t[1], v[0]);
      HexOfRest(t, v);
    }
  }
}
