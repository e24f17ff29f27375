/**
 The generator's front end: one entry from its tokens, and a struct from its entries.
 Tokens are what splitting a normalised line at blanks yields, so none is empty.
 */
module RpcFrontEnd {
  import opened Prelude
  import M = RpcMessage

  datatype Result<T> = Ok(value: T) | Err(error: Error)

  datatype Error =
    | CannotParseName | ExpectedEquals | ExpectedTag | TrailingToken | NeedTag
    | BadType | NotArrayable | OptionalArray | DuplicateTag(tag: nat)

  /** The length of a bytes entry is a C expression, kept as text. */
  datatype Type = TInt | TInt64 | TString | TBytes(length: string) | TVarBytes | TStruct(ref: string)

  datatype Decl = Decl(name: string, tag: nat, typ: Type, optional: bool, isArray: bool)

  // ----- lexical shapes -----

  predicate IsDigit(c: char) { '0' <= c <= '9' }

  predicate IsIdentStart(c: char) { 'a' <= c <= 'z' || 'A' <= c <= 'Z' || c == '_' }

  predicate IsIdent(s: string) {
    s != "" && IsIdentStart(s[0]) && forall i :: 0 <= i < |s| ==> IsIdentStart(s[i]) || IsDigit(s[i])
  }

  predicate AllDigits(s: string) {
    s != "" && forall i :: 0 <= i < |s| ==> IsDigit(s[i])
  }

  function Numeral(s: string, radix: nat): nat
    requires forall i :: 0 <= i < |s| ==> IsDigit(s[i])
  {
    if s == "" then 0
    else
      var last := s[|s| - 1];
      assert IsDigit(last);
      Numeral(s[..|s| - 1], radix) * radix + (last - '0') as nat
  }

  /** A tag: decimal without a superfluous leading zero, or 0x and decimal digits read as hexadecimal. */
  function ParseTag(s: string): Option<nat> {
    if |s| > 2 && s[..2] == "0x" && AllDigits(s[2..]) then Some(Numeral(s[2..], 16))
    else if AllDigits(s) && (s[0] != '0' || Numeral(s, 10) == 0) then Some(Numeral(s, 10))
    else None
  }

  predicate IsBracket(c: char) { c == '[' || c == ']' }

  function NameLength(s: string): (n: nat)
    ensures n <= |s|
    ensures forall i :: 0 <= i < n ==> !IsBracket(s[i])
    ensures n < |s| ==> IsBracket(s[n])
  {
    if s == "" || IsBracket(s[0]) then 0 else 1 + NameLength(s[1..])
  }

  /** A name token: a bracket-free name, then optionally a bracketed length. */
  datatype NameToken = NameToken(name: string, fixed: string)

  function SplitName(s: string): Option<NameToken> {
    var n := NameLength(s);
    if n == 0 then None
    else if n == |s| then Some(NameToken(s, ""))
    else if s[n] == '[' && |s| >= n + 2 && s[|s| - 1] == ']' then Some(NameToken(s[..n], s[n + 1..|s| - 1]))
    else None
  }

  function StructRef(s: string): Option<string> {
    if |s| > 8 && s[..7] == "struct[" && s[|s| - 1] == ']' && IsIdent(s[7..|s| - 1])
    then Some(s[7..|s| - 1]) else None
  }

  /** Empty brackets count as no length, and a struct reference ignores one. */
  function TypeOf(token: string, fixed: string): Option<Type> {
    if token == "bytes" then Some(if fixed != "" then TBytes(fixed) else TVarBytes)
    else if token == "int" && fixed == "" then Some(TInt)
    else if token == "int64" && fixed == "" then Some(TInt64)
    else if token == "string" && fixed == "" then Some(TString)
    else
      var ref := StructRef(token);
      if ref.Some? then Some(TStruct(ref.value)) else None
  }

  predicate CanBeArray(t: Type) { !t.TBytes? && !t.TVarBytes? }

  /** What Verify lets through. */
  predicate Legal(d: Decl) {
    (d.isArray ==> CanBeArray(d.typ)) && !(d.optional && d.isArray)
  }

  // ----- one entry -----

  /** The scanner's variables; an empty string means not seen yet. */
  datatype Scan = Scan(
    optional: bool, isArray: bool, entryType: string, name: string, fixed: string, separator: string, tag: Option<nat>)

  const START := Scan(false, false, "", "", "", "", None)

  /** One turn of the token loop. */
  function ScanToken(st: Scan, token: string): Result<Scan> {
    if st.entryType == "" && !st.optional && token == "optional" then Ok(st.(optional := true))
    else if st.entryType == "" && !st.isArray && token == "array" then Ok(st.(isArray := true))
    else if st.entryType == "" then Ok(st.(entryType := token))
    else if st.name == "" then
      var nt := SplitName(token);
      if nt.None? then Err(CannotParseName) else Ok(st.(name := nt.value.name, fixed := nt.value.fixed))
    else if st.separator == "" then
      if token != "=" then Err(ExpectedEquals) else Ok(st.(separator := token))
    else if st.tag.None? then
      var t := ParseTag(token);
      if t.None? then Err(ExpectedTag) else Ok(st.(tag := t))
    else Err(TrailingToken)
  }

  function ScanAll(st: Scan, tokens: seq<string>): Result<Scan>
    decreases |tokens|
  {
    if tokens == [] then Ok(st)
    else
      var r := ScanToken(st, tokens[0]);
      if r.Ok? then ScanAll(r.value, tokens[1..]) else Err(r.error)
  }

  /** Choosing the entry class and verifying it. */
  function Build(st: Scan): Result<Decl> {
    if st.tag.None? then Err(NeedTag)
    else
      var t := TypeOf(st.entryType, st.fixed);
      if t.None? then Err(BadType)
      else if st.isArray && !CanBeArray(t.value) then Err(NotArrayable)
      else if st.optional && st.isArray then Err(OptionalArray)
      else Ok(Decl(st.name, st.tag.value, t.value, st.optional, st.isArray))
  }

  function ParseEntry(tokens: seq<string>): Result<Decl> {
    var r := ScanAll(START, tokens);
    if r.Ok? then Build(r.value) else Err(r.error)
  }

  /** The token loop as written. */
  method ProcessOneEntry(entry: seq<string>) returns (r: Result<Decl>)
    requires forall i :: 0 <= i < |entry| ==> entry[i] != ""
    ensures r == ParseEntry(entry)
    ensures if r.Ok? then Spells(entry, r.value) else forall d :: !Spells(entry, d)
  {
    forall d
      ensures ParseEntry(entry) == Ok(d) <==> Spells(entry, d)
    {
      AcceptedExactly(entry, d);
    }
    var optional, isArray := false, false;
    var entryType, name, fixedLength, separator := "", "", "", "";
    var tag: Option<nat> := None;
    var tokens := entry;
    while tokens != []
      invariant ScanAll(START, entry)
             == ScanAll(Scan(optional, isArray, entryType, name, fixedLength, separator, tag), tokens)
      decreases |tokens|
    {
      var token := tokens[0];
      tokens := tokens[1..];
      if entryType == "" {
        if !optional && token == "optional" {
          optional := true;
          continue;
        }
        if !isArray && token == "array" {
          isArray := true;
          continue;
        }
      }
      if entryType == "" {
        entryType := token;
        continue;
      }
      if name == "" {
        var res := SplitName(token);
        if res.None? {
          return Err(CannotParseName);
        }
        name, fixedLength := res.value.name, res.value.fixed;
        continue;
      }
      if separator == "" {
        separator := token;
        if separator != "=" {
          return Err(ExpectedEquals);
        }
        continue;
      }
      if tag.None? {
        tag := ParseTag(token);
        if tag.None? {
          return Err(ExpectedTag);
        }
        continue;
      }
      return Err(TrailingToken);
    }
    if tag.None? {
      return Err(NeedTag);
    }
    var typ := TypeOf(entryType, fixedLength);
    if typ.None? {
      return Err(BadType);
    }
    if isArray && !CanBeArray(typ.value) {
      return Err(NotArrayable);
    }
    if optional && isArray {
      return Err(OptionalArray);
    }
    return Ok(Decl(name, tag.value, typ.value, optional, isArray));
  }

  // ----- the grammar of accepted entries, without the functions that scan them -----

  const DIGITS := "0123456789abcdef"

  /** A positive number as it is printed; nothing for zero. */
  function Print(n: nat, radix: nat): string
    requires 2 <= radix <= 16
  {
    if n == 0 then "" else Print(n / radix, radix) + [DIGITS[n % radix]]
  }

  function Unpadded(s: string): string {
    if s != "" && s[0] == '0' then Unpadded(s[1..]) else s
  }

  predicate DecimalDigits(s: string) {
    s != "" && forall i :: 0 <= i < |s| ==> '0' <= s[i] <= '9'
  }

  /** A tag: printed in decimal without padding, or zeros for zero; or "0x" and the hexadecimal printing, padded at will,
      of a number that has only decimal digits there. */
  predicate TagSpelled(token: string, tag: nat) {
    || (DecimalDigits(token) && Unpadded(token) == Print(tag, 10) && (tag == 0 || token[0] != '0'))
    || (|token| > 2 && token[..2] == "0x" && DecimalDigits(token[2..]) && Unpadded(token[2..]) == Print(tag, 16))
  }

  /** A name, free of brackets, with brackets around `fixed` or (for no `fixed`) without. */
  predicate NameSpelled(token: string, name: string, fixed: string) {
    && name != "" && '[' !in name && ']' !in name
    && (token == name + "[" + fixed + "]" || (token == name && fixed == ""))
  }

  predicate Identifier(s: string) {
    && s != "" && !('0' <= s[0] <= '9')
    && forall i :: 0 <= i < |s| ==>
         'a' <= s[i] <= 'z' || 'A' <= s[i] <= 'Z' || s[i] == '_' || '0' <= s[i] <= '9'
  }

  /** The type a keyword names; only bytes have a length, and a struct reference ignores one. */
  predicate TypeSpelled(token: string, fixed: string, t: Type) {
    match t
    case TInt => token == "int" && fixed == ""
    case TInt64 => token == "int64" && fixed == ""
    case TString => token == "string" && fixed == ""
    case TBytes(length) => token == "bytes" && fixed == length && length != ""
    case TVarBytes => token == "bytes" && fixed == ""
    case TStruct(ref) => token == "struct[" + ref + "]" && Identifier(ref)
  }

  /** Type, name, equals sign, tag. */
  ghost predicate Core(tokens: seq<string>, d: Decl) {
    && |tokens| == 4 && tokens[2] == "="
    && (exists fixed :: NameSpelled(tokens[1], d.name, fixed) && TypeSpelled(tokens[0], fixed, d.typ))
    && TagSpelled(tokens[3], d.tag)
  }

  /** `tokens` spell `d`: at most one of the two keywords, and bytes are in no array. */
  ghost predicate Spells(tokens: seq<string>, d: Decl) {
    if d.optional then !d.isArray && tokens != [] && tokens[0] == "optional" && Core(tokens[1..], d)
    else if d.isArray then
      !d.typ.TBytes? && !d.typ.TVarBytes? && tokens != [] && tokens[0] == "array" && Core(tokens[1..], d)
    else Core(tokens, d)
  }

  // ----- what the scanning functions find is what is spelled -----

  lemma {:induction false} DigitOf(c: char)
    requires IsDigit(c)
    ensures c == DIGITS[(c - '0') as int]
  {
  }

  lemma {:induction false} UnpaddedSnoc(s: string, c: char)
    ensures Unpadded(s + [c]) == if Unpadded(s) == "" && c == '0' then "" else Unpadded(s) + [c]
  {
    if s == "" {
      assert s + [c] == [c] && [c][1..] == "";
    } else if s[0] == '0' {
      assert (s + [c])[1..] == s[1..] + [c];
      UnpaddedSnoc(s[1..], c);
    }
  }

  lemma {:induction false} PrintSnoc(m: nat, radix: nat, v: nat)
    requires (radix == 10 || radix == 16) && v < radix
    ensures Print(m * radix + v, radix) ==
      if Print(m, radix) == "" && v == 0 then "" else Print(m, radix) + [DIGITS[v]]
  {
    if radix == 10 {
      assert (m * 10 + v) / 10 == m && (m * 10 + v) % 10 == v;
    } else {
      assert (m * 16 + v) / 16 == m && (m * 16 + v) % 16 == v;
    }
  }

  lemma {:induction false} PaddedSnoc(front: string, c: char, m: nat, radix: nat)
    requires (radix == 10 || radix == 16) && IsDigit(c) && Print(m, radix) == Unpadded(front)
    ensures Print(m * radix + (c - '0') as nat, radix) == Unpadded(front + [c])
  {
    var v := (c - '0') as nat;
    assert v < 10;
    DigitOf(c);
    UnpaddedSnoc(front, c);
    PrintSnoc(m, radix, v);
  }

  /** Reading a numeral and printing the number gives it back without its padding. */
  lemma {:induction false} PrintedBack(s: string, radix: nat)
    requires (radix == 10 || radix == 16) && forall i :: 0 <= i < |s| ==> IsDigit(s[i])
    ensures Print(Numeral(s, radix), radix) == Unpadded(s)
  {
    if s != "" {
      var front, c := s[..|s| - 1], s[|s| - 1];
      assert IsDigit(c);
      PrintedBack(front, radix);
      PaddedSnoc(front, c, Numeral(front, radix), radix);
      assert s == front + [c];
    }
  }

  lemma {:induction false} PrintEnds(n: nat, radix: nat) returns (front: nat, last: nat)
    requires n > 0 && (radix == 10 || radix == 16)
    ensures last < radix && front < n && Print(n, radix) == Print(front, radix) + [DIGITS[last]]
    ensures n == if radix == 10 then 10 * front + last else 16 * front + last
  {
    if radix == 10 {
      front, last := n / 10, n % 10;
    } else {
      front, last := n / 16, n % 16;
    }
  }

  /** No two numbers are printed alike. */
  lemma {:induction false} PrintInjective(m: nat, n: nat, radix: nat)
    requires (radix == 10 || radix == 16) && Print(m, radix) == Print(n, radix)
    ensures m == n
    decreases m
  {
    if m > 0 && n > 0 {
      var p, a := PrintEnds(m, radix);
      var q, b := PrintEnds(n, radix);
      LastDigit(Print(p, radix), DIGITS[a], Print(q, radix), DIGITS[b]);
      PrintInjective(p, q, radix);
      DigitsDiffer(a, b);
    }
  }

  lemma {:induction false} LastDigit(s: string, c: char, t: string, d: char)
    requires s + [c] == t + [d]
    ensures s == t && c == d
  {
    assert s == (s + [c])[..|s + [c]| - 1] && t == (t + [d])[..|t + [d]| - 1];
    assert c == (s + [c])[|s|] && d == (t + [d])[|t|];
  }

  lemma {:induction false} DigitsDiffer(i: nat, j: nat)
    requires i < 16 && j < 16 && DIGITS[i] == DIGITS[j]
    ensures i == j
  {
  }

  lemma {:induction false} DigitsAre(s: string)
    ensures AllDigits(s) <==> DecimalDigits(s)
  {
  }

  lemma {:induction false} NumeralIs(s: string, radix: nat, n: nat)
    requires (radix == 10 || radix == 16) && AllDigits(s)
    ensures Numeral(s, radix) == n <==> Unpadded(s) == Print(n, radix)
  {
    PrintedBack(s, radix);
    if Unpadded(s) == Print(n, radix) {
      PrintInjective(Numeral(s, radix), n, radix);
    }
  }

  lemma {:induction false} TagIs(token: string, tag: nat)
    ensures ParseTag(token) == Some(tag) <==> TagSpelled(token, tag)
  {
    DigitsAre(token);
    if |token| > 2 && token[..2] == "0x" {
      DigitsAre(token[2..]);
      assert token[1] == 'x';
      assert !AllDigits(token);
      if AllDigits(token[2..]) {
        NumeralIs(token[2..], 16, tag);
      }
    } else if AllDigits(token) {
      NumeralIs(token, 10, tag);
      NumeralIs(token, 10, 0);
    }
  }

  lemma {:induction false} NameIs(token: string, name: string, fixed: string)
    ensures SplitName(token) == Some(NameToken(name, fixed)) <==> NameSpelled(token, name, fixed)
  {
    var n := NameLength(token);
    if SplitName(token) == Some(NameToken(name, fixed)) {
      assert forall i :: 0 <= i < n ==> name[i] == token[i];
      if n < |token| {
        assert token == name + "[" + fixed + "]";
      }
    }
    if NameSpelled(token, name, fixed) {
      assert forall i :: 0 <= i < |name| ==> token[i] == name[i] && !IsBracket(token[i]);
      if token != name {
        assert token[|name|] == '[';
        assert n == |name|;
        assert token[..n] == name && token[n + 1..|token| - 1] == fixed;
      }
    }
  }

  lemma {:induction false} IdentifierIs(s: string)
    ensures IsIdent(s) <==> Identifier(s)
  {
  }

  lemma {:induction false} StructRefIs(token: string, ref: string)
    ensures StructRef(token) == Some(ref) <==> token == "struct[" + ref + "]" && Identifier(ref)
  {
    IdentifierIs(ref);
    if StructRef(token) == Some(ref) {
      assert token == token[..7] + token[7..|token| - 1] + [token[|token| - 1]];
    }
    if token == "struct[" + ref + "]" {
      assert token[..7] == "struct[" && token[7..|token| - 1] == ref && token[|token| - 1] == ']';
    }
  }

  lemma {:induction false} TypeIs(token: string, fixed: string, t: Type)
    ensures TypeOf(token, fixed) == Some(t) <==> TypeSpelled(token, fixed, t)
  {
    var ref := StructRef(token);
    if ref.Some? {
      StructRefIs(token, ref.value);
    }
    if t.TStruct? {
      StructRefIs(token, t.ref);
      if token == "struct[" + t.ref + "]" {
        assert token[6] == '[';
      }
    }
  }

  /** No type is spelled like a keyword. */
  lemma {:induction false} TypeTokenPlain(token: string, fixed: string, t: Type)
    requires TypeSpelled(token, fixed, t)
    ensures token != "" && token != "optional" && token != "array"
  {
    if t.TStruct? {
      assert token[0] == 's';
    }
  }

  /** After the type token the rest is fixed: name, equals sign, tag. */
  lemma {:induction false} ScanRest(st: Scan, rest: seq<string>)
    requires st.entryType != "" && st.name == "" && st.separator == "" && st.tag.None?
    requires forall i :: 0 <= i < |rest| ==> rest[i] != ""
    ensures (ScanAll(st, rest).Ok? && ScanAll(st, rest).value.tag.Some?) <==>
            |rest| == 3 && SplitName(rest[0]).Some? && rest[1] == "=" && ParseTag(rest[2]).Some?
    ensures ScanAll(st, rest).Ok? && ScanAll(st, rest).value.tag.Some? ==>
            ScanAll(st, rest).value == st.(name := SplitName(rest[0]).value.name, fixed := SplitName(rest[0]).value.fixed,
                                           separator := "=", tag := ParseTag(rest[2]))
  {
    if |rest| > 0 && SplitName(rest[0]).Some? {
      var nt := SplitName(rest[0]).value;
      var st1 := st.(name := nt.name, fixed := nt.fixed);
      assert ScanAll(st, rest) == ScanAll(st1, rest[1..]);
      if |rest| > 1 && rest[1] == "=" {
        var st2 := st1.(separator := "=");
        assert ScanAll(st1, rest[1..]) == ScanAll(st2, rest[1..][1..]);
        assert rest[1..][1..] == rest[2..];
        if |rest| > 2 && ParseTag(rest[2]).Some? {
          var st3 := st2.(tag := ParseTag(rest[2]));
          assert ScanAll(st2, rest[2..]) == ScanAll(st3, rest[2..][1..]);
          assert rest[2..][1..] == rest[3..];
        }
      }
    }
  }

  /** The four tokens as scanned. */
  predicate CoreScanned(rest: seq<string>, d: Decl) {
    && |rest| == 4 && SplitName(rest[1]).Some? && rest[2] == "=" && ParseTag(rest[3]) == Some(d.tag)
    && SplitName(rest[1]).value.name == d.name
    && TypeOf(rest[0], SplitName(rest[1]).value.fixed) == Some(d.typ)
  }

  lemma {:induction false} CoreIs(rest: seq<string>, d: Decl)
    ensures CoreScanned(rest, d) <==> Core(rest, d)
    ensures Core(rest, d) ==> rest[0] != "optional" && rest[0] != "array"
  {
    if |rest| == 4 {
      TagIs(rest[3], d.tag);
      var nt := SplitName(rest[1]);
      if nt.Some? {
        NameIs(rest[1], nt.value.name, nt.value.fixed);
        TypeIs(rest[0], nt.value.fixed, d.typ);
      }
      if Core(rest, d) {
        var fixed :| NameSpelled(rest[1], d.name, fixed) && TypeSpelled(rest[0], fixed, d.typ);
        NameIs(rest[1], d.name, fixed);
        TypeTokenPlain(rest[0], fixed, d.typ);
      }
    }
  }

  /** The scanner at the first token that is no further keyword. */
  lemma {:induction false} ScanType(st: Scan, rest: seq<string>, d: Decl)
    requires st == START.(optional := st.optional, isArray := st.isArray)
    requires forall i :: 0 <= i < |rest| ==> rest[i] != ""
    requires rest != [] ==> !(rest[0] == "optional" && !st.optional) && !(rest[0] == "array" && !st.isArray)
    ensures var r := ScanAll(st, rest);
      (r.Ok? && Build(r.value) == Ok(d)) <==>
        CoreScanned(rest, d) && d.optional == st.optional && d.isArray == st.isArray && Legal(d)
  {
    if rest != [] {
      var st1 := st.(entryType := rest[0]);
      assert ScanAll(st, rest) == ScanAll(st1, rest[1..]);
      ScanRest(st1, rest[1..]);
    }
  }

  /** Exactly the spelled-out entries are accepted, and each as what it spells. */
  lemma {:induction false} AcceptedExactly(tokens: seq<string>, d: Decl)
    requires forall i :: 0 <= i < |tokens| ==> tokens[i] != ""
    ensures ParseEntry(tokens) == Ok(d) <==> Spells(tokens, d)
  {
    CoreIs(tokens, d);
    if tokens == [] || (tokens[0] != "optional" && tokens[0] != "array") {
      ScanType(START, tokens, d);
    } else {
      var rest := tokens[1..];
      var st := if tokens[0] == "optional" then START.(optional := true) else START.(isArray := true);
      assert ScanAll(START, tokens) == ScanAll(st, rest);
      CoreIs(rest, d);
      if rest != [] && rest[0] == (if st.optional then "array" else "optional") {
        assert ScanAll(st, rest) == ScanAll(START.(optional := true, isArray := true), rest[1..]);
        ScanType(START.(optional := true, isArray := true), rest[1..], d);
      } else {
        ScanType(st, rest, d);
      }
    }
  }

  // ----- a struct -----

  ghost predicate DistinctTags(ds: seq<Decl>) {
    forall i, j :: 0 <= i < j < |ds| ==> ds[i].tag != ds[j].tag
  }

  class StructObject {
    var entries: seq<Decl>
    var tags: map<nat, string>

    /** `tags` names each entry under its tag, and no two entries share one. */
    ghost predicate Valid()
      reads this
    {
      && DistinctTags(entries)
      && (forall i :: 0 <= i < |entries| ==> entries[i].tag in tags && tags[entries[i].tag] == entries[i].name)
      && (forall t :: t in tags ==> exists i :: 0 <= i < |entries| && entries[i].tag == t)
    }

    constructor ()
      ensures Valid() && entries == []
    {
      entries, tags := [], map[];
    }

    method AddEntry(d: Decl) returns (ok: bool)
      requires Valid()
      modifies this
      ensures Valid()
      ensures ok <==> forall i :: 0 <= i < |old(entries)| ==> old(entries)[i].tag != d.tag
      ensures entries == if ok then old(entries) + [d] else old(entries)
    {
      if d.tag in tags {
        return false;
      }
      entries := entries + [d];
      tags := tags[d.tag := d.name];
      assert entries[|entries| - 1] == d;
      assert forall i :: 0 <= i < |old(entries)| ==> entries[i] == old(entries)[i];
      return true;
    }
  }

  /** Splitting at blanks leaves no empty token. */
  predicate Tokens(lines: seq<seq<string>>) {
    forall i, j :: 0 <= i < |lines| && 0 <= j < |lines[i]| ==> lines[i][j] != ""
  }

  /** `ds` is what the lines spell, line by line. */
  ghost predicate ParsedAs(lines: seq<seq<string>>, ds: seq<Decl>) {
    |ds| == |lines| && forall i :: 0 <= i < |ds| ==> Spells(lines[i], ds[i])
  }

  /** The lines spell entries with pairwise different tags. */
  ghost predicate Spellable(lines: seq<seq<string>>) {
    exists ds :: ParsedAs(lines, ds) && DistinctTags(ds)
  }

  /** All entries of a struct: accepted exactly when every entry is and their tags differ pairwise. */
  method ProcessStruct(lines: seq<seq<string>>) returns (r: Result<seq<Decl>>)
    requires Tokens(lines)
    ensures r.Ok? ==> ParsedAs(lines, r.value) && DistinctTags(r.value)
    ensures r.Err? ==> !Spellable(lines)
  {
    var newstruct := new StructObject();
    for n := 0 to |lines|
      invariant newstruct.Valid() && fresh(newstruct)
      invariant ParsedAs(lines[..n], newstruct.entries)
    {
      ghost var before := newstruct.entries;
      var e := ProcessOneEntry(lines[n]);
      if e.Err? {
        EachLineSpells(lines, n);
        return Err(e.error);
      }
      var ok := newstruct.AddEntry(e.value);
      if !ok {
        NoStruct(lines, n, before, e.value);
        return Err(DuplicateTag(e.value.tag));
      }
      ParsedSnoc(lines, n, before, e.value);
    }
    assert lines[..|lines|] == lines;
    return Ok(newstruct.entries);
  }

  lemma {:induction false} EachLineSpells(lines: seq<seq<string>>, n: nat)
    requires n < |lines|
    ensures Spellable(lines) ==> exists d :: Spells(lines[n], d)
  {
    if Spellable(lines) {
      var ds :| ParsedAs(lines, ds) && DistinctTags(ds);
      assert Spells(lines[n], ds[n]);
    }
  }

  lemma {:induction false} ParsedSnoc(lines: seq<seq<string>>, n: nat, before: seq<Decl>, d: Decl)
    requires n < |lines| && ParsedAs(lines[..n], before) && Spells(lines[n], d)
    ensures ParsedAs(lines[..n + 1], before + [d])
  {
    assert forall i :: 0 <= i < n ==> lines[..n + 1][i] == lines[..n][i];
  }

  /** No line spells two declarations. */
  lemma {:induction false} SpellsOne(tokens: seq<string>, d: Decl, e: Decl)
    requires forall i :: 0 <= i < |tokens| ==> tokens[i] != ""
    requires Spells(tokens, d) && Spells(tokens, e)
    ensures d == e
  {
    AcceptedExactly(tokens, d);
    AcceptedExactly(tokens, e);
  }

  lemma {:induction false} NoStruct(lines: seq<seq<string>>, n: nat, before: seq<Decl>, d: Decl)
    requires Tokens(lines) && n < |lines| && ParsedAs(lines[..n], before) && Spells(lines[n], d)
    requires exists i :: 0 <= i < |before| && before[i].tag == d.tag
    ensures !Spellable(lines)
  {
    var i :| 0 <= i < |before| && before[i].tag == d.tag;
    forall ds | ParsedAs(lines, ds)
      ensures !DistinctTags(ds)
    {
      assert Spells(lines[..n][i], before[i]);
      SpellsOne(lines[i], ds[i], before[i]);
      SpellsOne(lines[n], ds[n], d);
    }
  }

  // ----- from declarations to schemas -----

  /** `size` stands for the C compiler's reading of a length expression. */
  function KindOf(t: Type, size: string -> nat): M.Kind {
    match t
    case TInt => M.Int32
    case TInt64 => M.Int64
    case TString => M.Text
    case TBytes(length) => M.FixedBytes(size(length))
    case TVarBytes => M.VarBytes
    case TStruct(ref) => M.Nested(ref)
  }

  function EntryOf(d: Decl, size: string -> nat): M.Entry {
    M.Entry(d.name, d.tag, KindOf(d.typ, size),
            if d.isArray then M.Array else if d.optional then M.Optional else M.Required)
  }

  function SchemaOf(structs: map<string, seq<Decl>>, size: string -> nat, wire: M.Wire): (sch: M.Schema)
    ensures sch.structs.Keys == structs.Keys && sch.wire == wire
  {
    M.Schema(
      map name | name in structs ::
        seq(|structs[name]|, i requires 0 <= i < |structs[name]| => EntryOf(structs[name][i], size)),
      wire)
  }

  /** A file of accepted structs whose references are all defined is a valid schema (accepted entries are
      legal by AcceptedExactly, and their tags distinct by ProcessStruct). */
  lemma {:induction false} AcceptedIsValid(structs: map<string, seq<Decl>>, size: string -> nat, wire: M.Wire)
    requires M.Lossless(wire)
    requires forall name :: name in structs ==>
      DistinctTags(structs[name]) && forall d :: d in structs[name] ==>
        Legal(d) && (d.typ.TStruct? ==> d.typ.ref in structs)
    ensures M.ValidSchema(SchemaOf(structs, size, wire))
  {
    var sch := SchemaOf(structs, size, wire);
    forall name | name in sch.structs
      ensures M.DistinctTags(sch.structs[name])
      ensures forall e: M.Entry :: e in sch.structs[name] ==>
        (e.kind.Nested? ==> e.kind.ref in sch.structs) && (e.mode == M.Array ==> M.Arrayable(e.kind))
    {
      var ds := structs[name];
      assert forall i :: 0 <= i < |ds| ==> sch.structs[name][i] == EntryOf(ds[i], size);
      forall e: M.Entry | e in sch.structs[name]
        ensures (e.kind.Nested? ==> e.kind.ref in sch.structs) && (e.mode == M.Array ==> M.Arrayable(e.kind))
      {
        var i :| 0 <= i < |ds| && sch.structs[name][i] == e;
        assert ds[i] in ds;
        EntryValid(ds[i], size);
      }
    }
  }

  lemma {:induction false} EntryValid(d: Decl, size: string -> nat)
    requires Legal(d)
    ensures var e := EntryOf(d, size);
      && (e.kind.Nested? ==> d.typ.TStruct? && e.kind.ref == d.typ.ref)
      && (e.mode == M.Array ==> M.Arrayable(e.kind))
  {
  }
}
