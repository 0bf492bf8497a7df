/** The loops that print and parse configuration lines (hostap08/wpa_supplicant/config.c and config_file.c). */
module ConfigFile {
  import opened Wrappers
  import opened OctetNumbers
  import opened ConfigLine

  // ---- Printing

  method IsHex(data: Text) returns (r: bool)
    ensures r <==> !AllPrintable(data)
  {
    var i := 0;
    while i < |data|
      invariant 0 <= i <= |data| && forall k :: 0 <= k < i ==> Printable(data[k])
    {
      if data[i] < 32 || data[i] >= 127 {
        return true;
      }
      i := i + 1;
    }
    return false;
  }

  /** wpa_snprintf_hex into a buffer that is large enough */
  method WriteStringHex(value: Text) returns (buf: Text)
    ensures buf == ToHex(value)
  {
    buf := [];
    var i := 0;
    assert value[0..] == value;
    while i < |value|
      invariant 0 <= i <= |value| && buf + ToHex(value[i..]) == ToHex(value)
    {
      assert value[i..][0] == value[i] && value[i..][1..] == value[i + 1..];
      buf := buf + [LowerDigit(value[i] / 16), LowerDigit(value[i] % 16)];
      i := i + 1;
    }
  }

  method WriteValue(value: Text) returns (buf: Text)
    ensures buf == WriteString(value)
  {
    var hex := IsHex(value);
    if hex {
      buf := WriteStringHex(value);
    } else {
      buf := [QUOTE] + value + [QUOTE];
    }
  }

  /** write_str: nothing is printed for a field that is not set. */
  method WriteStr(file: Text, f: Field, value: Option<Text>) returns (file': Text)
    ensures file' == if value == None then file else file + PrintedLine(f, value.value) + [NEWLINE]
  {
    if value == None {
      return file;
    }
    var text := WriteValue(value.value);
    file' := file + ([TAB] + f.name + [EQUALS] + text) + [NEWLINE];
  }

  // ---- Parsing

  method HexStr2Bin(hex: Text, len: nat) returns (buf: Option<Text>)
    requires |hex| == 2 * len
    ensures buf == FromHex(hex)
  {
    var r: Text := [];
    var i := 0;
    assert hex[0..] == hex;
    PrependNothing(FromHex(hex), r);
    while i < len
      invariant 0 <= i <= len
      invariant Prepend(r, FromHex(hex[2 * i..])) == FromHex(hex)
    {
      var rest := hex[2 * i..];
      assert rest[2..] == hex[2 * (i + 1)..];
      var a, b := HexDigit(hex[2 * i]), HexDigit(hex[2 * i + 1]);
      if a < 0 || b < 0 {
        return None;
      }
      PrependTwice(r, [16 * a + b], FromHex(rest[2..]));
      r := r + [16 * a + b];
      i := i + 1;
    }
    assert hex[2 * i..] == [];
    PrependNothing(None, r);
    return Some(r);
  }

  function Prepend(r: Text, s: Option<Text>): Option<Text> {
    if s == None then None else Some(r + s.value)
  }

  lemma PrependNothing(s: Option<Text>, r: Text)
    ensures Prepend([], s) == s && Prepend(r, Some([])) == Some(r)
  {
    if s.Some? {
      assert [] + s.value == s.value;
    }
    assert r + [] == r;
  }

  lemma PrependTwice(a: Text, b: Text, s: Option<Text>)
    ensures Prepend(a, Prepend(b, s)) == Prepend(a + b, s)
  {
    if s.Some? {
      assert a + (b + s.value) == (a + b) + s.value;
    }
  }

  method ParseValue(text: Text) returns (r: Option<Text>)
    ensures r == ParseString(text)
  {
    if text != [] && text[0] == QUOTE {
      var pos := FindLast(text[1..], QUOTE);
      if pos == None || pos.value + 1 != |text[1..]| {
        return None;
      }
      return Some(text[1..][..pos.value]);
    }
    if |text| % 2 == 1 {
      return None;
    }
    r := HexStr2Bin(text, |text| / 2);
  }

  // ---- wpa_config_get_line

  method SkipWhiteSpace(s: Text) returns (pos: nat)
    ensures pos <= |s| && s[pos..] == SkipBlanks(s)
  {
    pos := 0;
    assert s[0..] == s;
    while pos < |s| && IsBlank(s[pos])
      invariant 0 <= pos <= |s| && SkipBlanks(s[pos..]) == SkipBlanks(s)
    {
      assert s[pos..][0] == s[pos] && s[pos..][1..] == s[pos + 1..];
      pos := pos + 1;
    }
  }

  /** Remove trailing white space, but never the first octet. */
  method RemoveTrailing(s: Text) returns (r: Text)
    ensures r == TrimEnd(s)
  {
    r := s;
    while |r| > 1 && (r[|r| - 1] == NEWLINE || r[|r| - 1] == SPACE || r[|r| - 1] == TAB || r[|r| - 1] == RETURN)
      invariant TrimEnd(r) == TrimEnd(s)
      decreases |r|
    {
      r := r[..|r| - 1];
    }
  }

  method CleanLine(chunk: Text) returns (r: Option<Text>)
    ensures r == LineContent(chunk)
  {
    var s := CString(chunk);
    var pos := SkipWhiteSpace(s);
    s := s[pos..];
    if s == [] || s[0] == HASH || s[0] == NEWLINE {
      return None;
    }
    var end := FindComment(s);
    var line := RemoveTrailing(s[..end]);
    return Some(line);
  }

  /** The last of two or more quotation marks, or the start. */
  method FindStart(s: Text) returns (start: nat)
    ensures start <= |s| && start == CommentStart(s)
  {
    start := Find(s, QUOTE);
    if start == |s| {
      return 0;
    }
    var last := FindLast(s[start + 1..], QUOTE);
    if last == None {
      return 0;
    }
    return start + 1 + last.value;
  }

  /** Where a comment starts that is not within a double quoted string, or the end. */
  method FindComment(s: Text) returns (end: nat)
    ensures end <= |s| && s[..end] == StripComment(s)
  {
    var start := FindStart(s);
    end := start + Find(s[start..], HASH);
  }

  method GetLine(stream: Text) returns (line: Option<Text>, rest: Text)
    ensures NextLine(stream) == if line == None then None else Some((line.value, rest))
  {
    rest := stream;
    while rest != []
      invariant NextLine(rest) == NextLine(stream)
      decreases |rest|
    {
      var chunk := Chunk(rest, LINE_BUFFER);
      rest := rest[|chunk|..];
      line := CleanLine(chunk);
      if line.Some? {
        return;
      }
    }
    line := None;
  }

  /** The next assignment of a network block, as the field sees it. */
  method ReadNextField(f: Field, stream: Text) returns (r: Option<FieldValue>)
    ensures r == ReadField(f, stream)
  {
    var line, rest := GetLine(stream);
    if line == None {
      return None;
    }
    match SplitLine(line.value) {
      case Assign(name, text) =>
        if name != f.name {
          return None;
        }
        if text == NULL_TEXT {
          return Some(Unset);
        }
        var v := ParseValue(text);
        if v == None || (f.minLen > 0 && |v.value| < f.minLen) || (f.maxLen > 0 && |v.value| > f.maxLen) {
          return Some(Error);
        }
        return Some(Value(v.value));
      case _ =>
        return None;
    }
  }

  /** What write_str prints for a field is what reading the file gives it, if the line fits the buffer. */
  method WriteThenRead(f: Field, v: Text, rest: Text) returns (r: Option<FieldValue>)
    requires IsName(f.name) && WithinLimits(f, v)
    ensures r == Some(Value(v)) <==> |PrintedLine(f, v)| < LINE_BUFFER
  {
    var file := WriteStr([], f, Some(v));
    assert [] + PrintedLine(f, v) == PrintedLine(f, v);
    LineRoundTrip(f, v, rest);
    r := ReadNextField(f, file + rest);
  }
}
