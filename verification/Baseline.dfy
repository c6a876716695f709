/** The baseline file: printing it, reading it, and that the two undo each other. */
module Baseline {
  import opened Strings
  import opened Wrappers

  datatype Error = NoEquals | BadVersion | NoOpen | NoClose | NotQuoted | UnexpectedLine | NoVersion

  /** A whole file, or one name in it. */
  datatype Key = Key(path: string, name: Option<string>)

  datatype Policy = Policy(version: nat, checked: seq<Key>, trusted: seq<Key>)

  const U32_MAX: nat := 0xFFFF_FFFF

  // ----- strings -----

  predicate IsSpace(c: char) {
    || '\t' <= c <= '\r' || c == ' ' || c == '\U{85}' || c == '\U{A0}' || c == '\U{1680}' || '\U{2000}' <= c <= '\U{200A}'
    || c == '\U{2028}' || c == '\U{2029}' || c == '\U{202F}' || c == '\U{205F}' || c == '\U{3000}'
  }

  /** The characters with the property White_Space, by their code points. */
  lemma SpaceCodes(c: char)
    ensures IsSpace(c) <==> c as int in {0x9, 0xA, 0xB, 0xC, 0xD, 0x20, 0x85, 0xA0, 0x1680, 0x2000, 0x2001, 0x2002, 0x2003,
                                         0x2004, 0x2005, 0x2006, 0x2007, 0x2008, 0x2009, 0x200A, 0x2028, 0x2029, 0x202F,
                                         0x205F, 0x3000}
  {
  }

  function TrimStart(s: string): (r: string)
    ensures |r| <= |s| && r == s[|s| - |r|..] && (r == [] || !IsSpace(r[0]))
  {
    if s != [] && IsSpace(s[0]) then TrimStart(s[1..]) else s
  }

  function TrimEnd(s: string): (r: string)
    ensures r <= s && (r == [] || !IsSpace(r[|r| - 1]))
  {
    if s != [] && IsSpace(s[|s| - 1]) then TrimEnd(s[..|s| - 1]) else s
  }

  /** What is cut off is white space. */
  lemma {:induction false} TrimmedStart(s: string)
    ensures forall i :: 0 <= i < |s| - |TrimStart(s)| ==> IsSpace(s[i])
  {
    hide IsSpace;
    if s != [] && IsSpace(s[0]) {
      var rest := s[1..];
      TrimmedStart(rest);
      var r := TrimStart(rest);
      assert TrimStart(s) == r;
      hide TrimStart;
      forall i | 0 <= i < |s| - |r|
        ensures IsSpace(s[i])
      {
        assert i > 0 ==> s[i] == rest[i - 1];
      }
    }
  }

  lemma {:induction false} TrimmedEnd(s: string)
    ensures forall i :: |TrimEnd(s)| <= i < |s| ==> IsSpace(s[i])
  {
    hide IsSpace;
    if s != [] && IsSpace(s[|s| - 1]) {
      var rest := s[..|s| - 1];
      TrimmedEnd(rest);
      var r := TrimEnd(rest);
      assert TrimEnd(s) == r;
      hide TrimEnd;
      forall i | |r| <= i < |s|
        ensures IsSpace(s[i])
      {
        assert i < |s| - 1 ==> s[i] == rest[i];
      }
    }
  }

  function Trim(s: string): string {
    TrimEnd(TrimStart(s))
  }

  /** The pieces between the separators; one more than there are separators. */
  function Split(s: string, c: char): (parts: seq<string>)
    ensures parts != []
    decreases |s|
  {
    var i := IndexOf(s, c);
    if i == |s| then [s] else [s[..i]] + Split(s[i + 1..], c)
  }

  /** The lines of a text: each ends in a newline, or a carriage return and a newline. */
  function Lines(s: string): seq<string>
    decreases |s|
  {
    if s == [] then []
    else
      var i := IndexOf(s, '\n');
      if i == |s| then [s]
      else [if i > 0 && s[i - 1] == '\r' then s[..i - 1] else s[..i]] + Lines(s[i + 1..])
  }

  function Unlines(ls: seq<string>): string {
    if ls == [] then [] else ls[0] + "\n" + Unlines(ls[1..])
  }

  function Digit(d: nat): char
    requires d < 10
  {
    '0' + d as char
  }

  function Decimal(n: nat): string {
    (if n < 10 then [] else Decimal(n / 10)) + [Digit(n % 10)]
  }

  predicate IsDigit(c: char) { '0' <= c <= '9' }

  predicate AllDigits(s: string) {
    forall c :: c in s ==> IsDigit(c)
  }

  function DigitsValue(s: string): nat
    requires AllDigits(s)
  {
    if s == [] then 0
    else
      var d := s[|s| - 1];
      assert IsDigit(d);
      DigitsValue(s[..|s| - 1]) * 10 + (d - '0') as nat
  }

  function ParseU32(s: string): Option<nat> {
    var t := if s != [] && s[0] == '+' then s[1..] else s;
    if t == [] || !AllDigits(t) then None
    else if DigitsValue(t) > U32_MAX then None
    else Some(DigitsValue(t))
  }

  ghost predicate Spells(s: string, digits: string, n: nat) {
    && digits != [] && (forall i :: 0 <= i < |digits| ==> '0' <= digits[i] <= '9')
    && (s == digits || s == ['+'] + digits) && DigitsValue(digits) == n && n <= 0xFFFF_FFFF
  }

  /** A version is a decimal number of 32 bits, with or without a plus sign. */
  lemma VersionText(s: string, n: nat)
    ensures ParseU32(s) == Some(n) <==> exists digits :: Spells(s, digits, n)
  {
    hide DigitsValue;
    var t := if s != [] && s[0] == '+' then s[1..] else s;
    assert s == t || s == ['+'] + t;
    if ParseU32(s) == Some(n) {
      assert forall i :: 0 <= i < |t| ==> t[i] in t;
      assert Spells(s, t, n);
    }
    if digits :| Spells(s, digits, n) {
      assert s[0] == '+' <==> s != digits;
      assert t == digits;
    }
  }

  // ----- keys -----

  function ToText(k: Key): string {
    if k.name.Some? then k.path + "#" + k.name.value else k.path
  }

  function ParseKey(s: string): Key {
    var i := IndexOf(s, '#');
    if i < |s| then Key(s[..i], Some(s[i + 1..])) else Key(s, None)
  }

  function ParseKeys(ss: seq<string>): seq<Key> {
    if ss == [] then [] else [ParseKey(ss[0])] + ParseKeys(ss[1..])
  }

  /** By path, a whole file before the names in it. */
  predicate Less(a: Key, b: Key) {
    LexLess(a.path, b.path) || (a.path == b.path && b.name.Some? && (a.name.None? || LexLess(a.name.value, b.name.value)))
  }

  /** The same order through the first difference of two texts. */
  ghost predicate ComesBefore(a: Key, b: Key) {
    || Precedes(a.path, b.path)
    || (a.path == b.path && a.name.None? && b.name.Some?)
    || (a.path == b.path && a.name.Some? && b.name.Some? && Precedes(a.name.value, b.name.value))
  }

  ghost predicate StrictlySorted(ks: seq<Key>) {
    forall i, j :: 0 <= i < j < |ks| ==> ComesBefore(ks[i], ks[j])
  }

  function Insert(k: Key, ks: seq<Key>): seq<Key> {
    if ks == [] || Less(k, ks[0]) then [k] + ks
    else if k == ks[0] then ks
    else [ks[0]] + Insert(k, ks[1..])
  }

  /** Sorted, without duplicates. */
  function Sorted(ks: seq<Key>): seq<Key> {
    if ks == [] then [] else Insert(ks[0], Sorted(ks[1..]))
  }

  // ----- printing -----

  const MANAGED := "# Managed by `airl verify-policy`. Hand-edits are allowed; CI validates"
  const RATCHET := "# consistency on every run. Remove an entry to ratchet — requires upgrading"
  const PROVEN := "# the module's :verify to proven and adding :ensures to every :pub defn."

  function Entry(k: Key): string {
    "  \"" + ToText(k) + "\","
  }

  function Entries(ks: seq<Key>): seq<string> {
    if ks == [] then [] else [Entry(ks[0])] + Entries(ks[1..])
  }

  function Listing(name: string, ks: seq<Key>): seq<string> {
    [name + " = ["] + Entries(ks) + ["]"]
  }

  const CHECKED := "grandfathered_checked"
  const TRUSTED := "grandfathered_trusted"

  function RenderLines(b: Policy): seq<string> {
    [MANAGED, RATCHET, PROVEN, "version = " + Decimal(b.version), ""] + Listing(CHECKED, Sorted(b.checked)) + [""] +
    Listing(TRUSTED, Sorted(b.trusted))
  }

  function Render(b: Policy): string {
    Unlines(RenderLines(b))
  }

  // ----- reading -----

  /** What comes before the first `#` outside quotes. */
  function StripComment(line: string, inString: bool): string {
    if line == [] || (line[0] == '#' && !inString) then []
    else [line[0]] + StripComment(line[1..], if line[0] == '"' then !inString else inString)
  }

  function Cleaned(line: string): string {
    Trim(StripComment(line, false))
  }

  /** The text up to the line that closes the array, and the lines after it. */
  function Gather(buf: string, ls: seq<string>): (string, seq<string>)
    decreases |ls|
  {
    if ']' in buf || ls == [] then (buf, ls) else Gather(buf + " " + Cleaned(ls[0]), ls[1..])
  }

  function Unquoted(parts: seq<string>): Result<seq<string>, Error> {
    if parts == [] then Ok([])
    else
      var p := Trim(parts[0]);
      if p == [] then Unquoted(parts[1..])
      else if |p| < 2 || p[0] != '"' || p[|p| - 1] != '"' then Err(NotQuoted)
      else
        var rest := Unquoted(parts[1..]);
        if rest.Err? then rest else Ok([p[1..|p| - 1]] + rest.value)
  }

  function Elements(buf: string): Result<seq<string>, Error> {
    var s := Trim(buf);
    if s == [] || s[0] != '[' then Err(NoOpen)
    else
      var t := TrimEnd(s[1..]);
      if t == [] || t[|t| - 1] != ']' then Err(NoClose)
      else
        var inner := Trim(t[..|t| - 1]);
        if inner == [] then Ok([]) else Unquoted(Split(inner, ','))
  }

  function ParseArray(after: string, ls: seq<string>): Result<(seq<Key>, seq<string>), Error> {
    var s := TrimStart(after);
    if s == [] || s[0] != '=' then Err(NoEquals)
    else
      var (buf, rest) := Gather(TrimStart(s[1..]), ls);
      var es := Elements(buf);
      if es.Err? then Err(es.error) else Ok((ParseKeys(es.value), rest))
  }

  function ParseVersion(after: string): Result<nat, Error> {
    var s := TrimStart(after);
    if s == [] || s[0] != '=' then Err(NoEquals)
    else
      var n := ParseU32(Trim(s[1..]));
      if n.None? then Err(BadVersion) else Ok(n.value)
  }

  lemma {:induction false} GatherShrinks(buf: string, ls: seq<string>)
    ensures |Gather(buf, ls).1| <= |ls|
    decreases |ls|
  {
    if !(']' in buf || ls == []) {
      GatherShrinks(buf + " " + Cleaned(ls[0]), ls[1..]);
    }
  }

  function ParseLines(ls: seq<string>, version: Option<nat>, checked: seq<Key>, trusted: seq<Key>): Result<Policy, Error>
    decreases |ls|
  {
    if ls == [] then (if version.None? then Err(NoVersion) else Ok(Policy(version.value, checked, trusted)))
    else
      var line := Cleaned(ls[0]);
      if line == [] then ParseLines(ls[1..], version, checked, trusted)
      else if "version" <= line then
        var v := ParseVersion(line[|"version"|..]);
        if v.Err? then Err(v.error) else ParseLines(ls[1..], Some(v.value), checked, trusted)
      else if CHECKED <= line then
        var r := ParseArray(line[|CHECKED|..], ls[1..]);
        if r.Err? then Err(r.error)
        else
          assert |r.value.1| < |ls| by { Remaining(line[|CHECKED|..], ls[1..]); }
          ParseLines(r.value.1, version, r.value.0, trusted)
      else if TRUSTED <= line then
        var r := ParseArray(line[|TRUSTED|..], ls[1..]);
        if r.Err? then Err(r.error)
        else
          assert |r.value.1| < |ls| by { Remaining(line[|TRUSTED|..], ls[1..]); }
          ParseLines(r.value.1, version, checked, r.value.0)
      else Err(UnexpectedLine)
  }

  lemma Remaining(after: string, ls: seq<string>)
    ensures ParseArray(after, ls).Ok? ==> |ParseArray(after, ls).value.1| <= |ls|
  {
    hide Elements, ParseKeys, TrimStart, Gather;
    var s := TrimStart(after);
    if s != [] && s[0] == '=' {
      GatherShrinks(TrimStart(s[1..]), ls);
    }
  }

  function Parse(src: string): Result<Policy, Error> {
    ParseLines(Lines(src), None, [], [])
  }

  // ----- the loops -----

  method FindComment(line: string) returns (r: string)
    ensures r == StripComment(line, false)
  {
    var inString, i := false, 0;
    while i < |line|
      invariant i <= |line| && StripComment(line, false) == line[..i] + StripComment(line[i..], inString)
    {
      assert line[i..][1..] == line[i + 1..] && line[..i + 1] == line[..i] + [line[i]];
      if line[i] == '"' {
        inString := !inString;
      } else if line[i] == '#' && !inString {
        assert line[..i] + [] == line[..i];
        return line[..i];
      }
      i := i + 1;
    }
    assert line[..i] + [] == line;
    return line;
  }

  /** Appends line after line until one closes the array. */
  method GatherLines(first: string, ls: seq<string>) returns (buf: string, next: nat)
    ensures next <= |ls| && (buf, ls[next..]) == Gather(first, ls)
  {
    buf, next := first, 0;
    while ']' !in buf && next < |ls|
      invariant next <= |ls| && Gather(buf, ls[next..]) == Gather(first, ls)
    {
      var line := FindComment(ls[next]);
      assert ls[next..][0] == ls[next] && ls[next..][1..] == ls[next + 1..];
      buf := buf + " " + Trim(line);
      next := next + 1;
    }
  }

  function InFront(out: seq<string>, r: Result<seq<string>, Error>): Result<seq<string>, Error> {
    if r.Err? then r else Ok(out + r.value)
  }

  lemma UnquotedStep(parts: seq<string>, i: nat, out: seq<string>)
    requires i < |parts|
    ensures var p, rest := Trim(parts[i]), Unquoted(parts[i + 1..]);
            InFront(out, Unquoted(parts[i..])) ==
              if p == [] then InFront(out, rest)
              else if |p| < 2 || p[0] != '"' || p[|p| - 1] != '"' then Err(NotQuoted)
              else InFront(out + [p[1..|p| - 1]], rest)
  {
    hide Trim;
    assert parts[i..][0] == parts[i] && parts[i..][1..] == parts[i + 1..];
    var p, rest := Trim(parts[i]), Unquoted(parts[i + 1..]);
    if p != [] && |p| >= 2 && rest.Ok? {
      assert out + ([p[1..|p| - 1]] + rest.value) == out + [p[1..|p| - 1]] + rest.value;
    }
  }

  method CollectParts(parts: seq<string>) returns (r: Result<seq<string>, Error>)
    ensures r == Unquoted(parts)
  {
    var out, i := [], 0;
    StartOfParts(parts);
    hide Unquoted, InFront, Trim;
    while i < |parts|
      invariant i <= |parts| && Unquoted(parts) == InFront(out, Unquoted(parts[i..]))
    {
      UnquotedStep(parts, i, out);
      var p := Trim(parts[i]);
      i := i + 1;
      if p == [] {
        continue;
      }
      if |p| < 2 || p[0] != '"' || p[|p| - 1] != '"' {
        return Err(NotQuoted);
      }
      out := out + [p[1..|p| - 1]];
    }
    EndOfParts(parts, out);
    return Ok(out);
  }

  lemma EndOfParts(parts: seq<string>, out: seq<string>)
    ensures InFront(out, Unquoted(parts[|parts|..])) == Ok(out)
  {
    assert parts[|parts|..] == [] && out + [] == out;
  }

  lemma StartOfParts(parts: seq<string>)
    ensures Unquoted(parts) == InFront([], Unquoted(parts[0..]))
  {
    assert parts[0..] == parts;
    assert Unquoted(parts).Ok? ==> [] + Unquoted(parts).value == Unquoted(parts).value;
  }

  method ReadArray(after: string, ls: seq<string>) returns (r: Result<(seq<Key>, seq<string>), Error>)
    ensures r == ParseArray(after, ls)
  {
    var s := TrimStart(after);
    if s == [] || s[0] != '=' {
      return Err(NoEquals);
    }
    var buf, next := GatherLines(TrimStart(s[1..]), ls);
    var body := Trim(buf);
    if body == [] || body[0] != '[' {
      return Err(NoOpen);
    }
    var t := TrimEnd(body[1..]);
    if t == [] || t[|t| - 1] != ']' {
      return Err(NoClose);
    }
    var inner := Trim(t[..|t| - 1]);
    if inner == [] {
      return Ok(([], ls[next..]));
    }
    var es := CollectParts(Split(inner, ','));
    if es.Err? {
      return Err(es.error);
    }
    return Ok((ParseKeys(es.value), ls[next..]));
  }

  method ReadBaseline(src: string) returns (r: Result<Policy, Error>)
    ensures r == Parse(src)
  {
    var version: Option<nat> := None;
    var checked: seq<Key>, trusted: seq<Key> := [], [];
    var ls := Lines(src);
    while ls != []
      invariant ParseLines(ls, version, checked, trusted) == Parse(src)
      decreases |ls|
    {
      var raw := FindComment(ls[0]);
      var line := Trim(raw);
      var rest := ls[1..];
      if line == [] {
        ls := rest;
      } else if "version" <= line {
        var v := ParseVersion(line[|"version"|..]);
        if v.Err? {
          return Err(v.error);
        }
        version, ls := Some(v.value), rest;
      } else if CHECKED <= line {
        var a := ReadArray(line[|CHECKED|..], rest);
        if a.Err? {
          return Err(a.error);
        }
        Remaining(line[|CHECKED|..], rest);
        checked, ls := a.value.0, a.value.1;
      } else if TRUSTED <= line {
        var a := ReadArray(line[|TRUSTED|..], rest);
        if a.Err? {
          return Err(a.error);
        }
        Remaining(line[|TRUSTED|..], rest);
        trusted, ls := a.value.0, a.value.1;
      } else {
        return Err(UnexpectedLine);
      }
    }
    if version.None? {
      return Err(NoVersion);
    }
    return Ok(Policy(version.value, checked, trusted));
  }

  lemma {:induction false} UnlinesConcat(a: seq<string>, b: seq<string>)
    ensures Unlines(a + b) == Unlines(a) + Unlines(b)
  {
    if a == [] {
      assert a + b == b;
    } else {
      assert (a + b)[1..] == a[1..] + b;
      UnlinesConcat(a[1..], b);
    }
  }

  method PushKeys(before: string, ks: seq<Key>) returns (s: string)
    ensures s == before + Unlines(Entries(ks))
  {
    s := before;
    var i := 0;
    assert ks[0..] == ks;
    while i < |ks|
      invariant i <= |ks| && s + Unlines(Entries(ks[i..])) == before + Unlines(Entries(ks))
    {
      assert ks[i..][0] == ks[i] && ks[i..][1..] == ks[i + 1..];
      ghost var rest := Entries(ks[i + 1..]);
      assert Entries(ks[i..]) == [Entry(ks[i])] + rest && ([Entry(ks[i])] + rest)[1..] == rest;
      assert s + (Entry(ks[i]) + "\n" + Unlines(rest)) == s + (Entry(ks[i]) + "\n") + Unlines(rest);
      s := s + (Entry(ks[i]) + "\n");
      i := i + 1;
    }
    assert s + Unlines([]) == s;
  }

  lemma UnlinesListing(name: string, ks: seq<Key>)
    ensures Unlines(Listing(name, ks)) == name + " = [" + "\n" + Unlines(Entries(ks)) + "]\n"
  {
    var head := name + " = [";
    UnlinesConcat([head] + Entries(ks), ["]"]);
    UnlinesConcat([head], Entries(ks));
    UnlinesOne(head);
    UnlinesOne("]");
    hide Unlines, Entries;
    assert "]" + "\n" == "]\n";
  }

  lemma UnlinesOne(l: string)
    ensures Unlines([l]) == l + "\n"
  {
    assert [l][1..] == [] && Unlines([]) == [];
  }

  method WriteListing(before: string, name: string, ks: seq<Key>) returns (s: string)
    ensures s == before + Unlines(Listing(name, ks))
  {
    UnlinesListing(name, ks);
    hide Unlines, Entries, Listing;
    s := before + (name + " = [" + "\n");
    s := PushKeys(s, ks);
    s := s + "]\n";
  }

  method WriteBaseline(b: Policy) returns (s: string)
    ensures s == Render(b)
  {
    var intro := [MANAGED, RATCHET, PROVEN, "version = " + Decimal(b.version), ""];
    var c, t := Sorted(b.checked), Sorted(b.trusted);
    UnlinesIntro("version = " + Decimal(b.version));
    UnlinesConcat(intro, Listing(CHECKED, c));
    UnlinesConcat(intro + Listing(CHECKED, c), [""]);
    UnlinesConcat(intro + Listing(CHECKED, c) + [""], Listing(TRUSTED, t));
    UnlinesOne("");
    hide Unlines, Listing, Sorted, Decimal;
    s := MANAGED + "\n" + RATCHET + "\n" + PROVEN + "\n" + ("version = " + Decimal(b.version) + "\n") + "\n";
    s := WriteListing(s, CHECKED, c);
    s := s + "\n";
    s := WriteListing(s, TRUSTED, t);
  }

  lemma UnlinesIntro(v: string)
    ensures Unlines([MANAGED, RATCHET, PROVEN, v, ""]) == MANAGED + "\n" + RATCHET + "\n" + PROVEN + "\n" + (v + "\n") + "\n"
  {
    UnlinesOne(MANAGED);
    UnlinesOne(RATCHET);
    UnlinesOne(PROVEN);
    UnlinesOne(v);
    UnlinesOne("");
    UnlinesConcat([MANAGED], [RATCHET]);
    UnlinesConcat([MANAGED] + [RATCHET], [PROVEN]);
    UnlinesConcat([MANAGED] + [RATCHET] + [PROVEN], [v]);
    UnlinesConcat([MANAGED] + [RATCHET] + [PROVEN] + [v], [""]);
    hide *;
    assert [MANAGED, RATCHET, PROVEN, v, ""] == [MANAGED] + [RATCHET] + [PROVEN] + [v] + [""];
  }
}
