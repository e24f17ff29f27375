/** The callbacks handed to the HTTP library: upload chunks, response body, response headers. */
module Helpers {

  // ----- trimming -----

  /** isspace in the "C" locale. */
  predicate IsSpace(c: char) {
    c == ' ' || 9 <= c as int <= 13
  }

  /** The six characters, spelled out: blank, tab, newline, vertical tab, form feed, carriage return. */
  lemma {:induction false} SpaceChars(c: char)
    ensures IsSpace(c) <==> c in {' ', '\t', '\n', '\U{0B}', '\U{0C}', '\r'}
  {
    if 9 <= c as int <= 13 {
      assert '\t' as int == 9 && '\n' as int == 10 && '\U{0B}' as int == 11 && '\U{0C}' as int == 12 && '\r' as int == 13;
    }
  }

  predicate AllSpace(s: string) {
    forall i :: 0 <= i < |s| ==> IsSpace(s[i])
  }

  predicate Trimmed(s: string) {
    s != "" ==> !IsSpace(s[0]) && !IsSpace(s[|s| - 1])
  }

  function TrimLeft(s: string): string {
    if s != "" && IsSpace(s[0]) then TrimLeft(s[1..]) else s
  }

  function TrimRight(s: string): string {
    if s != "" && IsSpace(s[|s| - 1]) then TrimRight(s[..|s| - 1]) else s
  }

  function Trim(s: string): string {
    TrimLeft(TrimRight(s))
  }

  lemma {:induction false} TrimLeftPadded(pad: string, s: string)
    requires AllSpace(pad) && (s != "" ==> !IsSpace(s[0]))
    ensures TrimLeft(pad + s) == s
  {
    if pad == "" {
      assert pad + s == s;
    } else {
      assert (pad + s)[1..] == pad[1..] + s;
      TrimLeftPadded(pad[1..], s);
    }
  }

  lemma {:induction false} TrimRightPadded(s: string, pad: string)
    requires AllSpace(pad)
    ensures TrimRight(s + pad) == TrimRight(s)
  {
    if pad == "" {
      assert s + pad == s;
    } else {
      var n := |pad| - 1;
      assert (s + pad)[..|s| + n] == s + pad[..n];
      TrimRightPadded(s, pad[..n]);
    }
  }

  /** Trimming removes exactly the surrounding white space. */
  lemma {:induction false} TrimPadded(before: string, core: string, after: string)
    requires AllSpace(before) && AllSpace(after) && Trimmed(core)
    ensures Trim(before + core + after) == core
  {
    TrimRightPadded(before + core, after);
    if core == "" {
      assert before + core == "" + before;
      TrimRightPadded("", before);
    } else {
      TrimLeftPadded(before, core);
    }
  }

  /** Every string is white space, its trimmed form, white space. */
  lemma {:induction false} TrimSplits(s: string) returns (before: string, after: string)
    ensures AllSpace(before) && AllSpace(after) && Trimmed(Trim(s)) && s == before + Trim(s) + after
  {
    if s == "" {
      before, after := "", "";
    } else if IsSpace(s[|s| - 1]) {
      var n := |s| - 1;
      before, after := TrimSplits(s[..n]);
      after := after + [s[n]];
    } else if IsSpace(s[0]) {
      before, after := TrimSplits(s[1..]);
      assert TrimRight(s) == s && TrimRight(s[1..]) == s[1..];
      before := [s[0]] + before;
    } else {
      before, after := "", "";
    }
  }

  /** ltrim: erase up to the first character that is not white space. */
  method Ltrim(s: string) returns (t: string)
    ensures t == TrimLeft(s)
  {
    var i := 0;
    while i < |s| && IsSpace(s[i])
      invariant i <= |s| && AllSpace(s[..i])
    {
      i := i + 1;
    }
    assert s == s[..i] + s[i..];
    TrimLeftPadded(s[..i], s[i..]);
    return s[i..];
  }

  /** rtrim: erase after the last character that is not white space. */
  method Rtrim(s: string) returns (t: string)
    ensures t == TrimRight(s)
  {
    var n: nat := |s|;
    while n > 0 && IsSpace(s[n - 1])
      invariant n <= |s| && AllSpace(s[n..])
    {
      n := n - 1;
    }
    assert s == s[..n] + s[n..];
    TrimRightPadded(s[..n], s[n..]);
    return s[..n];
  }

  method TrimBoth(s: string) returns (t: string)
    ensures t == Trim(s)
  {
    t := Rtrim(s);
    t := Ltrim(t);
  }

  // ----- response headers -----

  type HeaderFields = map<string, string>

  const PRESENT := "present"

  /** Position of the first colon, or the length of the string. */
  function FirstColon(s: string): (n: nat)
    ensures n <= |s| && ':' !in s[..n]
    ensures n < |s| ==> s[n] == ':'
  {
    if s == "" || s[0] == ':' then 0
    else
      var n := 1 + FirstColon(s[1..]);
      assert s[..n] == [s[0]] + s[1..][..n - 1];
      n
  }

  /** What one header line does to the fields received so far. */
  function HeaderNext(headers: HeaderFields, line: string): HeaderFields {
    var n := FirstColon(line);
    if n == |line| then
      if Trim(line) == "" then headers else headers[Trim(line) := PRESENT]
    else headers[Trim(line[..n]) := Trim(line[n + 1..])]
  }

  function HeadersFrom(headers: HeaderFields, lines: seq<string>): HeaderFields {
    if lines == [] then headers else HeaderNext(HeadersFrom(headers, lines[..|lines| - 1]), lines[|lines| - 1])
  }

  datatype Field = Field(key: string, value: string)

  /** A field as it goes on the wire: printed as key:value and ended by white space. */
  function Line(f: Field, eol: string): string {
    f.key + ":" + f.value + eol
  }

  predicate Plain(f: Field) {
    ':' !in f.key && Trimmed(f.key) && Trimmed(f.value)
  }

  lemma {:induction false} NoColon(s: string, n: nat)
    requires n <= |s| && ':' !in s[..n]
    ensures forall i :: 0 <= i < n ==> s[i] != ':'
  {
    assert forall i :: 0 <= i < n ==> s[..n][i] == s[i];
  }

  lemma {:induction false} FirstColonIs(s: string, n: nat)
    requires n < |s| && s[n] == ':' && ':' !in s[..n]
    ensures FirstColon(s) == n
  {
    NoColon(s, n);
    NoColon(s, FirstColon(s));
  }

  lemma {:induction false} TrimFixes(s: string)
    ensures Trim(s) == s <==> Trimmed(s)
  {
    var before, after := TrimSplits(s);
    if Trimmed(s) {
      TrimPadded("", s, "");
      assert "" + s + "" == s;
    }
  }

  lemma {:induction false} TrimDropsEol(s: string, eol: string)
    requires AllSpace(eol)
    ensures Trim(s + eol) == Trim(s)
  {
    TrimRightPadded(s, eol);
  }

  /** One printed field is recovered exactly when its key has no colon and key and value are trimmed. */
  lemma {:induction false} LineRecovered(f: Field, eol: string)
    requires AllSpace(eol)
    ensures HeaderNext(map[], Line(f, eol)) == map[f.key := f.value] <==> Plain(f)
  {
    var line := Line(f, eol);
    var m := HeaderNext(map[], line);
    assert line[|f.key|] == ':' && line[..|f.key|] == f.key;
    if ':' !in f.key {
      FirstColonIs(line, |f.key|);
      assert line[|f.key| + 1..] == f.value + eol;
      TrimDropsEol(f.value, eol);
      TrimFixes(f.key);
      TrimFixes(f.value);
      assert m == map[Trim(f.key) := Trim(f.value)];
      assert Trim(f.key) in m && m[Trim(f.key)] == Trim(f.value);
    } else {
      var n := FirstColon(line);
      assert n < |f.key| by {
        var i :| 0 <= i < |f.key| && f.key[i] == ':';
        assert line[i] == ':';
        NoColon(line, n);
      }
      var before, after := TrimSplits(line[..n]);
      assert |Trim(line[..n])| <= n;
      assert Trim(line[..n]) in m && Trim(line[..n]) != f.key;
    }
  }

  lemma {:induction false} LineSets(headers: HeaderFields, f: Field, eol: string)
    requires AllSpace(eol) && Plain(f)
    ensures HeaderNext(headers, Line(f, eol)) == headers[f.key := f.value]
  {
    var line := Line(f, eol);
    assert line[|f.key|] == ':' && line[..|f.key|] == f.key;
    FirstColonIs(line, |f.key|);
    assert line[|f.key| + 1..] == f.value + eol;
    TrimDropsEol(f.value, eol);
    TrimFixes(f.key);
    TrimFixes(f.value);
  }

  /** A line without a colon: its trimmed text is marked as present; a blank line, such as the one that ends the
      headers, changes nothing. */
  lemma {:induction false} ColonlessLine(headers: HeaderFields, before: string, core: string, after: string)
    requires AllSpace(before) && AllSpace(after) && Trimmed(core) && ':' !in core
    ensures HeaderNext(headers, before + core + after) == if core == "" then headers else headers[core := "present"]
  {
    var line := before + core + after;
    TrimPadded(before, core, after);
    assert forall i :: 0 <= i < |line| ==> line[i] != ':' by {
      assert forall i :: 0 <= i < |line| ==> line[i] in before || line[i] in core || line[i] in after;
    }
  }

  /** On lines as HTTP ends them. */
  lemma {:induction false} CrlfLines(headers: HeaderFields, f: Field, core: string)
    ensures HeaderNext(map[], f.key + ":" + f.value + "\r\n") == map[f.key := f.value] <==> Plain(f)
    ensures Plain(f) ==> HeaderNext(headers, f.key + ":" + f.value + "\r\n") == headers[f.key := f.value]
    ensures Trimmed(core) && ':' !in core && core != "" ==> HeaderNext(headers, core + "\r\n") == headers[core := "present"]
    ensures HeaderNext(headers, "\r\n") == headers
  {
    SpaceChars('\r');
    SpaceChars('\n');
    LineRecovered(f, "\r\n");
    if Plain(f) {
      LineSets(headers, f, "\r\n");
    }
    if Trimmed(core) && ':' !in core {
      ColonlessLine(headers, "", core, "\r\n");
      assert "" + core + "\r\n" == core + "\r\n";
    }
    ColonlessLine(headers, "", "", "\r\n");
    assert "" + "" + "\r\n" == "\r\n";
  }

  function Lines(fields: seq<Field>, eol: string): (lines: seq<string>)
    ensures |lines| == |fields| && forall i :: 0 <= i < |fields| ==> lines[i] == Line(fields[i], eol)
  {
    if fields == [] then [] else Lines(fields[..|fields| - 1], eol) + [Line(fields[|fields| - 1], eol)]
  }

  predicate DistinctKeys(fields: seq<Field>) {
    forall i, j :: 0 <= i < j < |fields| ==> fields[i].key != fields[j].key
  }

  /** `m` holds exactly the given fields. */
  ghost predicate Holds(m: HeaderFields, fields: seq<Field>) {
    && (forall i :: 0 <= i < |fields| ==> fields[i].key in m && m[fields[i].key] == fields[i].value)
    && forall k :: k in m ==> exists i :: 0 <= i < |fields| && fields[i].key == k
  }

  lemma {:induction false} HoldsSnoc(m: HeaderFields, fields: seq<Field>, f: Field)
    requires Holds(m, fields) && forall i :: 0 <= i < |fields| ==> fields[i].key != f.key
    ensures Holds(m[f.key := f.value], fields + [f])
  {
    var all, n := fields + [f], m[f.key := f.value];
    forall k | k in n
      ensures exists i :: 0 <= i < |all| && all[i].key == k
    {
      if k == f.key {
        assert all[|fields|].key == k;
      } else {
        var i :| 0 <= i < |fields| && fields[i].key == k;
        assert all[i].key == k;
      }
    }
  }

  lemma {:induction false} OneMoreLine(fields: seq<Field>, f: Field, eol: string)
    requires AllSpace(eol) && Plain(f)
    ensures HeadersFrom(map[], Lines(fields + [f], eol)) == HeadersFrom(map[], Lines(fields, eol))[f.key := f.value]
  {
    LineSets(HeadersFrom(map[], Lines(fields, eol)), f, eol);
    assert (fields + [f])[..|fields|] == fields;
    var lines := Lines(fields, eol);
    assert (lines + [Line(f, eol)])[..|lines|] == lines;
  }

  /** A printed header list is recovered: each field with its value, and nothing else. */
  lemma {:induction false} HeadersRoundTrip(fields: seq<Field>, eol: string)
    requires AllSpace(eol) && DistinctKeys(fields) && forall i :: 0 <= i < |fields| ==> Plain(fields[i])
    ensures Holds(HeadersFrom(map[], Lines(fields, eol)), fields)
  {
    if fields != [] {
      var init, f := fields[..|fields| - 1], fields[|fields| - 1];
      assert fields == init + [f];
      HeadersRoundTrip(init, eol);
      OneMoreLine(init, f, eol);
      HoldsSnoc(HeadersFrom(map[], Lines(init, eol)), init, f);
    }
  }

  /** A printed list as HTTP sends it: fields ended by "\r\n", then an empty line. */
  lemma {:induction false} CrlfRoundTrip(fields: seq<Field>)
    requires DistinctKeys(fields) && forall i :: 0 <= i < |fields| ==> Plain(fields[i])
    ensures Holds(HeadersFrom(map[], Lines(fields, "\r\n") + ["\r\n"]), fields)
  {
    SpaceChars('\r');
    SpaceChars('\n');
    HeadersRoundTrip(fields, "\r\n");
    var lines := Lines(fields, "\r\n");
    assert (lines + ["\r\n"])[..|lines|] == lines;
    CrlfLines(HeadersFrom(map[], lines), Field("", ""), "");
  }

  /** Printing the header fields of a request, one line each. */
  method PrintHeaders(fields: seq<Field>) returns (lines: seq<string>)
    ensures lines == Lines(fields, "")
    ensures |lines| == |fields| && forall i :: 0 <= i < |lines| ==> lines[i] == fields[i].key + ":" + fields[i].value
  {
    lines := [];
    for i := 0 to |fields|
      invariant lines == Lines(fields[..i], "")
    {
      assert fields[..i + 1][..i] == fields[..i];
      assert Line(fields[i], "") == fields[i].key + ":" + fields[i].value;
      lines := lines + [fields[i].key + ":" + fields[i].value];
    }
    assert fields[..|fields|] == fields;
  }

  class Response {
    var body: string
    var headers: HeaderFields

    constructor ()
      ensures body == "" && headers == map[]
    {
      body, headers := "", map[];
    }

    method WriteCallback(data: string) returns (n: nat)
      modifies this`body
      ensures body == old(body) + data && n == |data|
    {
      body := body + data;
      return |data|;
    }

    /** Returning the number of bytes given is what tells the library that the line was taken. */
    method HeaderCallback(data: string) returns (n: nat)
      modifies this`headers
      ensures headers == HeaderNext(old(headers), data) && n == |data|
    {
      var separator := 0;
      while separator < |data| && data[separator] != ':'
        invariant separator <= |data| && ':' !in data[..separator]
      {
        separator := separator + 1;
      }
      if separator == |data| {
        NoColon(data, separator);
        var header := TrimBoth(data);
        if |header| == 0 {
          return |data|;
        }
        headers := headers[header := PRESENT];
      } else {
        FirstColonIs(data, separator);
        var key := TrimBoth(data[..separator]);
        var value := TrimBoth(data[separator + 1..]);
        headers := headers[key := value];
      }
      return |data|;
    }
  }

  // ----- uploads -----

  function Min(a: nat, b: nat): nat {
    if a < b then a else b
  }

  /** The chunks handed over when the library offers room for `sizes` in turn, starting at `from`. */
  function Chunks(upload: string, from: nat, sizes: seq<nat>): (chunks: seq<string>)
    requires from <= |upload|
    decreases |sizes|
  {
    if sizes == [] then []
    else
      var n := Min(|upload| - from, sizes[0]);
      [upload[from..from + n]] + Chunks(upload, from + n, sizes[1..])
  }

  function Joined(chunks: seq<string>): string {
    if chunks == [] then "" else chunks[0] + Joined(chunks[1..])
  }

  function Sum(sizes: seq<nat>): nat {
    if sizes == [] then 0 else sizes[0] + Sum(sizes[1..])
  }

  /** Together the chunks are the upload, as far as the room offered reaches; all of it once that suffices. */
  lemma {:induction false} ChunksJoin(upload: string, from: nat, sizes: seq<nat>)
    requires from <= |upload|
    ensures Joined(Chunks(upload, from, sizes)) == upload[from..from + Min(|upload| - from, Sum(sizes))]
    decreases |sizes|
  {
    if sizes != [] {
      var n := Min(|upload| - from, sizes[0]);
      var rest := Chunks(upload, from + n, sizes[1..]);
      ChunksJoin(upload, from + n, sizes[1..]);
      var chunks := Chunks(upload, from, sizes);
      assert chunks == [upload[from..from + n]] + rest;
      assert chunks[0] == upload[from..from + n] && chunks[1..] == rest;
    }
  }

  class PutDataStruct {
    const upload: string
    var data: nat                // the data pointer, as an offset
    var length: nat

    ghost predicate Valid()
      reads this
    {
      data + length == |upload|
    }

    constructor (upload: string)
      ensures Valid() && this.upload == upload && data == 0
    {
      this.upload, data, length := upload, 0, |upload|;
    }

    /** Copy what fits into the library's buffer and step over it. */
    method ReadCallback(dest: array<char>, size: nat, nmemb: nat) returns (n: nat)
      requires Valid() && size * nmemb <= dest.Length
      modifies this, dest
      ensures Valid() && n == Min(old(length), size * nmemb) && data == old(data) + n
      ensures dest[..n] == upload[old(data)..data]
      ensures forall k :: n <= k < dest.Length ==> dest[k] == old(dest[k])
    {
      var room := size * nmemb;
      n := if length < room then length else room;
      for i := 0 to n
        invariant data == old(data) && length == old(length)
        invariant forall k :: 0 <= k < i ==> dest[k] == upload[data + k]
        invariant forall k :: i <= k < dest.Length ==> dest[k] == old(dest[k])
      {
        dest[i] := upload[data + i];
      }
      length := length - n;
      data := data + n;
    }

    /** The library asking for one piece after another, each time with room for so many bytes. */
    method HandOver(sizes: seq<nat>) returns (chunks: seq<string>)
      requires Valid()
      modifies this
      ensures Valid() && old(data) <= data && chunks == Chunks(upload, old(data), sizes)
      ensures Joined(chunks) == upload[old(data)..data]
    {
      chunks := [];
      for i := 0 to |sizes|
        invariant Valid() && data >= old(data)
        invariant Chunks(upload, old(data), sizes) == chunks + Chunks(upload, data, sizes[i..])
        invariant data + Min(length, Sum(sizes[i..])) == old(data) + Min(|upload| - old(data), Sum(sizes))
      {
        var dest := new char[sizes[i]];
        ghost var from := data;
        var n := ReadCallback(dest, sizes[i], 1);
        assert sizes[i..][1..] == sizes[i + 1..];
        assert Chunks(upload, from, sizes[i..]) == [dest[..n]] + Chunks(upload, data, sizes[i + 1..]);
        chunks := chunks + [dest[..n]];
      }
      ChunksJoin(upload, old(data), sizes);
    }
  }
}
