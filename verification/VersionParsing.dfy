/** Parsing a version: a number for each part between the dots, behind an optional 'v' and up to
    the first '+'. */
module VersionParsing {
  import opened Outcomes
  import opened Trimming

  // --- parsing -----------------------------------------------------------------------------

  const MAX_INT: nat := 0x7fff_ffff_ffff_ffff

  function SplitOn(s: string, separator: char): (parts: seq<string>)
    ensures parts != []
  {
    if s == "" then [""]
    else
      var rest := SplitOn(s[1..], separator);
      if s[0] == separator then [""] + rest else [[s[0]] + rest[0]] + rest[1..]
  }

  function DecimalFrom(s: string, value: nat): Option<nat> {
    if s == "" then Some(value)
    else if '0' <= s[0] <= '9' then DecimalFrom(s[1..], value * 10 + (s[0] as nat - '0' as nat))
    else None
  }

  /** strconv.Atoi on text without a sign: digits only, within 64 bits. */
  function Atoi(s: string): Option<nat> {
    if s == "" then None
    else
      var n := DecimalFrom(s, 0);
      if n.Some? && n.value <= MAX_INT then n else None
  }

  function ParsePart(raw: string): Option<nat> {
    if TrimSpace(raw) == "" then Some(0) else Atoi(TrimSpace(raw))
  }

  function ParseParts(raws: seq<string>): Result<seq<nat>, string> {
    if raws == [] then Ok([])
    else
      var n := ParsePart(raws[0]);
      if n.None? then Err("invalid version")
      else
        var rest := ParseParts(raws[1..]);
        if rest.Err? then rest else Ok([n.value] + rest.value)
  }

  function Core(version: string): string {
    var trimmed := TrimSpace(version);
    SplitOn(if trimmed != "" && trimmed[0] == 'v' then trimmed[1..] else trimmed, '+')[0]
  }

  function Parsed(version: string): Result<seq<nat>, string> {
    var core := Core(version);
    if '-' in core then Err("prerelease version is not supported")
    else if core == "" then Err("empty version")
    else ParseParts(SplitOn(core, '.'))
  }

  function After(parts: seq<nat>, rest: Result<seq<nat>, string>): Result<seq<nat>, string> {
    if rest.Err? then rest else Ok(parts + rest.value)
  }

  lemma ParseStep(raws: seq<string>, i: nat, parts: seq<nat>)
    requires i < |raws|
    ensures ParsePart(raws[i]).None? ==> After(parts, ParseParts(raws[i..])) == Err("invalid version")
    ensures ParsePart(raws[i]).Some? ==>
              After(parts, ParseParts(raws[i..])) ==
                After(parts + [ParsePart(raws[i]).value], ParseParts(raws[i + 1..]))
  {
    assert raws[i..][1..] == raws[i + 1..];
    if ParsePart(raws[i]).Some? && ParseParts(raws[i + 1..]).Ok? {
      var n, rest := ParsePart(raws[i]).value, ParseParts(raws[i + 1..]).value;
      assert parts + ([n] + rest) == (parts + [n]) + rest;
    }
  }

  method ParseLifecycleVersion(version: string) returns (r: Result<seq<nat>, string>)
    ensures r == Parsed(version)
    ensures forall ns: seq<nat> :: r == Ok(ns) <==> IsVersion(version, ns)
  {
    hide Core, SplitOn, IsVersion;
    forall ns: seq<nat> ensures Parsed(version) == Ok(ns) <==> IsVersion(version, ns) {
      ParsedMeaning(version, ns);
    }
    var core := Core(version);
    if '-' in core {
      return Err("prerelease version is not supported");
    }
    if core == "" {
      return Err("empty version");
    }
    var raws := SplitOn(core, '.');
    var parts: seq<nat> := [];
    assert raws[0..] == raws && (ParseParts(raws).Ok? ==> [] + ParseParts(raws).value == ParseParts(raws).value);
    for i := 0 to |raws|
      invariant ParseParts(raws) == After(parts, ParseParts(raws[i..]))
    {
      ParseStep(raws, i, parts);
      var raw := TrimSpace(raws[i]);
      if raw == "" {
        parts := parts + [0];
        continue;
      }
      var value := Atoi(raw);
      if value.None? {
        return Err("invalid version");
      }
      parts := parts + [value.value];
    }
    assert raws[|raws|..] == [] && parts + [] == parts;
    return Ok(parts);
  }

  // --- what a version is -------------------------------------------------------------------

  function JoinWith(parts: seq<string>, separator: char): string
    requires parts != []
  {
    if |parts| == 1 then parts[0] else parts[0] + [separator] + JoinWith(parts[1..], separator)
  }

  ghost predicate IsSplitAt(parts: seq<string>, s: string, separator: char) {
    parts != [] && JoinWith(parts, separator) == s && forall k :: 0 <= k < |parts| ==> separator !in parts[k]
  }

  /** The value of a text of digits, its last digit being the ones. */
  function Value(digits: string): nat
    requires IsDigits(digits)
  {
    if digits == "" then 0
    else 10 * Value(digits[..|digits| - 1]) + (digits[|digits| - 1] as nat - 48)
  }

  ghost predicate IsDigits(s: string) {
    forall k :: 0 <= k < |s| ==> 48 <= s[k] as nat <= 57
  }

  /** A decimal number of at most 63 bits with blanks around it; nothing but blanks stands for zero. */
  ghost predicate IsNumber(raw: string, n: nat) {
    exists t :: IsTrimOf(t, raw) && IsNumberText(t, n)
  }

  ghost predicate IsNumberText(t: string, n: nat) {
    if t == "" then n == 0 else IsDigits(t) && n == Value(t) && n < 0x8000_0000_0000_0000
  }

  /** The text behind an optional 'v', up to the first '+'. */
  ghost predicate IsCore(core: string, t: string) {
    exists rest :: (if "v" <= t then t == "v" + rest else t == rest) && IsUpTo(core, rest, '+')
  }

  ghost predicate IsUpTo(core: string, s: string, c: char) {
    c !in core && (core == s || core + [c] <= s)
  }

  ghost predicate AreNumbers(pieces: seq<string>, ns: seq<nat>) {
    |pieces| == |ns| && forall i :: 0 <= i < |ns| ==> IsNumber(pieces[i], ns[i])
  }

  ghost predicate IsDotted(core: string, ns: seq<nat>) {
    exists pieces :: IsSplitAt(pieces, core, '.') && AreNumbers(pieces, ns)
  }

  /** The version's numbers. */
  ghost predicate IsVersion(version: string, ns: seq<nat>) {
    exists t, core :: IsTrimOf(t, version) && IsCore(core, t) && core != "" && '-' !in core && IsDotted(core, ns)
  }

  lemma JoinFirst(c: char, parts: seq<string>, separator: char)
    requires parts != []
    ensures JoinWith([[c] + parts[0]] + parts[1..], separator) == [c] + JoinWith(parts, separator)
  {
    var longer := [[c] + parts[0]] + parts[1..];
    assert longer[1..] == parts[1..];
    if |parts| > 1 {
      assert ([c] + parts[0]) + [separator] + JoinWith(parts[1..], separator)
          == [c] + (parts[0] + [separator] + JoinWith(parts[1..], separator));
    }
  }

  lemma {:induction false} SplitOnJoins(s: string, separator: char)
    ensures IsSplitAt(SplitOn(s, separator), s, separator)
  {
    if s != "" {
      var rest := SplitOn(s[1..], separator);
      SplitOnJoins(s[1..], separator);
      assert s == [s[0]] + s[1..];
      if s[0] == separator {
        assert ([""] + rest)[1..] == rest;
        assert "" + [separator] + s[1..] == s;
      } else {
        JoinFirst(s[0], rest, separator);
      }
    }
  }

  lemma {:induction false} SplitOfPiece(piece: string, rest: string, separator: char)
    requires separator !in piece
    ensures SplitOn(piece + [separator] + rest, separator) == [piece] + SplitOn(rest, separator)
    ensures SplitOn(piece, separator) == [piece]
  {
    var s := piece + [separator] + rest;
    if piece == "" {
      assert s[1..] == rest;
    } else {
      assert s[1..] == piece[1..] + [separator] + rest && s[0] == piece[0];
      SplitOfPiece(piece[1..], rest, separator);
      assert [piece[0]] + piece[1..] == piece;
    }
  }

  lemma {:induction false} SplitAtDecides(parts: seq<string>, s: string, separator: char)
    requires IsSplitAt(parts, s, separator)
    ensures parts == SplitOn(s, separator)
    decreases |parts|
  {
    hide SplitOn;
    if |parts| == 1 {
      SplitOfPiece(s, "", separator);
    } else {
      SplitOfPiece(parts[0], JoinWith(parts[1..], separator), separator);
      SplitAtDecides(parts[1..], JoinWith(parts[1..], separator), separator);
    }
  }

  /** SplitOn gives exactly the parts between the separators. */
  lemma SplitOnMeaning(s: string, separator: char, parts: seq<string>)
    ensures parts == SplitOn(s, separator) <==> IsSplitAt(parts, s, separator)
  {
    SplitOnJoins(s, separator);
    if IsSplitAt(parts, s, separator) { SplitAtDecides(parts, s, separator); }
  }

  lemma {:induction false} DecimalFromMeaning(front: string, s: string)
    requires IsDigits(front)
    ensures DecimalFrom(s, Value(front)) == if IsDigits(s) then Some(Value(front + s)) else None
    decreases s
  {
    assert s == "" ==> front + s == front;
    if s != "" && 48 <= s[0] as nat <= 57 {
      var longer := front + [s[0]];
      assert longer[..|longer| - 1] == front && front + s == longer + s[1..];
      DecimalFromMeaning(longer, s[1..]);
      assert s == [s[0]] + s[1..];
    }
  }

  lemma ParsePartMeaning(raw: string, n: nat)
    ensures ParsePart(raw) == Some(n) <==> IsNumber(raw, n)
  {
    hide TrimSpace, IsTrimOf, DecimalFrom;
    var t := TrimSpace(raw);
    TrimSpaceMeaning(raw, t);
    forall u | IsTrimOf(u, raw) ensures u == t { TrimSpaceMeaning(raw, u); }
    DecimalFromMeaning("", t);
    assert "" + t == t;
  }

  lemma {:induction false} ParsePartsMeaning(raws: seq<string>, ns: seq<nat>)
    ensures ParseParts(raws) == Ok(ns) <==> AreNumbers(raws, ns)
  {
    hide ParsePart, IsNumber;
    if raws != [] && ns != [] {
      ParsePartMeaning(raws[0], ns[0]);
      ParsePartsMeaning(raws[1..], ns[1..]);
      assert ns == [ns[0]] + ns[1..] && raws == [raws[0]] + raws[1..];
    }
  }

  lemma UpToMeaning(core: string, s: string, c: char)
    ensures core == SplitOn(s, c)[0] <==> IsUpTo(core, s, c)
  {
    hide SplitOn;
    var parts := SplitOn(s, c);
    SplitOnMeaning(s, c, parts);
    if IsUpTo(core, s, c) {
      if core == s {
        SplitOfPiece(core, "", c);
      } else {
        var rest := s[|core| + 1..];
        assert s == core + [c] + rest;
        SplitOfPiece(core, rest, c);
      }
    }
  }

  lemma CoreMeaning(version: string, core: string)
    ensures core == Core(version) <==> exists t :: IsTrimOf(t, version) && IsCore(core, t)
  {
    hide TrimSpace, IsTrimOf, SplitOn, IsUpTo;
    var t := TrimSpace(version);
    TrimSpaceMeaning(version, t);
    forall u | IsTrimOf(u, version) ensures u == t { TrimSpaceMeaning(version, u); }
    var rest := if "v" <= t then t[1..] else t;
    assert "v" <= t <==> t != "" && t[0] == 'v';
    assert "v" <= t ==> t == "v" + rest;
    UpToMeaning(core, rest, '+');
  }

  /** A text parses to its numbers if it is a version, and not at all otherwise. */
  lemma ParsedMeaning(version: string, ns: seq<nat>)
    ensures Parsed(version) == Ok(ns) <==> IsVersion(version, ns)
  {
    hide Core, SplitOn, ParseParts, IsTrimOf, IsCore, IsSplitAt, AreNumbers;
    var core := Core(version);
    CoreMeaning(version, core);
    forall t, c | IsTrimOf(t, version) && IsCore(c, t) ensures c == core { CoreMeaning(version, c); }
    var raws := SplitOn(core, '.');
    SplitOnMeaning(core, '.', raws);
    forall pieces | IsSplitAt(pieces, core, '.') ensures pieces == raws { SplitOnMeaning(core, '.', pieces); }
    ParsePartsMeaning(raws, ns);
  }

  // --- how a version begins ----------------------------------------------------------------

  /** A character that neither blanks, 'v' nor a number's text begin with. */
  ghost predicate IsOdd(c: char) {
    !IsBlank(c) && c !in {'v', '+', '.'} && !(48 <= c as nat <= 57)
  }

  lemma NumberStart(raw: string, n: nat)
    requires IsNumber(raw, n) && raw != ""
    ensures !IsOdd(raw[0])
  {
    var t :| IsTrimOf(t, raw) && IsNumberText(t, n);
    var before, after :| IsAround(before, t, after, raw);
    if before != "" {
      assert raw[0] == before[0];
    } else if t != "" {
      assert raw[0] == t[0];
    } else {
      assert raw == after;
    }
  }

  lemma DottedStart(core: string, ns: seq<nat>)
    requires IsDotted(core, ns) && core != ""
    ensures !IsOdd(core[0])
  {
    hide IsNumber;
    var pieces :| IsSplitAt(pieces, core, '.') && AreNumbers(pieces, ns);
    if pieces[0] != "" {
      NumberStart(pieces[0], ns[0]);
    }
  }

  lemma VersionStart(version: string, ns: seq<nat>)
    requires IsVersion(version, ns)
    ensures version != "" && !IsOdd(version[0])
  {
    hide IsDotted;
    var t, core :| IsTrimOf(t, version) && IsCore(core, t) && core != "" && '-' !in core && IsDotted(core, ns);
    DottedStart(core, ns);
    var rest :| (if "v" <= t then t == "v" + rest else t == rest) && IsUpTo(core, rest, '+');
    assert rest[0] == core[0];
    var before, after :| IsAround(before, t, after, version);
    if before != "" {
      assert version[0] == before[0];
    } else {
      assert version[0] == t[0];
    }
  }
}
