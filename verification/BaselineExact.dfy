/** Exactly which baselines are read back as they were printed. */
module BaselineExact {
  import opened Baseline
  import opened BaselineCorrect
  import opened Strings
  import opened Wrappers

  // ----- what no key has that was read -----

  predicate LacksAll(ss: seq<string>, c: char) {
    forall i :: 0 <= i < |ss| ==> c !in ss[i]
  }

  /** A key as the reader makes them. */
  predicate Readable(k: Key) {
    '#' !in k.path && ',' !in ToText(k) && '\n' !in ToText(k)
  }

  predicate AllReadable(ks: seq<Key>) {
    forall i :: 0 <= i < |ks| ==> Readable(ks[i])
  }

  lemma {:induction false} LinesLack(s: string)
    ensures LacksAll(Lines(s), '\n')
    decreases |s|
  {
    if s != [] {
      var i := IndexOf(s, '\n');
      if i < |s| {
        LinesLack(s[i + 1..]);
      }
    }
  }

  lemma LacksTail(ss: seq<string>, c: char)
    requires LacksAll(ss, c) && ss != []
    ensures c !in ss[0] && LacksAll(ss[1..], c)
  {
  }

  lemma LacksCons(s: string, ss: seq<string>, c: char)
    requires c !in s && LacksAll(ss, c)
    ensures LacksAll([s] + ss, c)
  {
  }

  lemma NothingLacks(c: char)
    ensures LacksAll([], c)
  {
  }

  lemma EndParts(s: string)
    ensures |TrimEnd(s)| <= |s| && TrimEnd(s) == s[..|TrimEnd(s)|]
  {
    hide *;
  }

  lemma StartParts(s: string)
    ensures |TrimStart(s)| <= |s| && TrimStart(s) == s[|s| - |TrimStart(s)|..] && Trim(s) == TrimEnd(TrimStart(s))
  {
    hide TrimStart, TrimEnd, IsSpace;
  }

  lemma TrimLacks(s: string, c: char)
    requires c !in s
    ensures c !in Trim(s) && c !in TrimStart(s) && c !in TrimEnd(s)
  {
    hide *;
    var t := TrimStart(s);
    StartParts(s);
    EndParts(t);
    EndParts(s);
    SliceLacks(s, |s| - |t|, |s|, c);
    SliceLacks(t, 0, |TrimEnd(t)|, c);
    SliceLacks(s, 0, |TrimEnd(s)|, c);
  }

  lemma SliceLacks(s: string, i: nat, j: nat, c: char)
    requires i <= j <= |s| && c !in s
    ensures c !in s[i..j] && c !in s[i..] && c !in s[..j]
  {
  }

  lemma {:induction false} StripLacks(s: string, inString: bool, c: char)
    requires c !in s
    ensures c !in StripComment(s, inString)
  {
    if s != [] {
      StripLacks(s[1..], if s[0] == '"' then !inString else inString, c);
    }
  }

  lemma CleanedLacks(s: string, c: char)
    requires c !in s
    ensures c !in Cleaned(s)
  {
    StripLacks(s, false, c);
    TrimLacks(StripComment(s, false), c);
  }

  lemma {:induction false} GatherLacks(buf: string, ls: seq<string>, c: char)
    requires c != ' ' && c !in buf && LacksAll(ls, c)
    ensures c !in Gather(buf, ls).0 && LacksAll(Gather(buf, ls).1, c)
    decreases |ls|
  {
    if !(']' in buf || ls == []) {
      LacksTail(ls, c);
      CleanedLacks(ls[0], c);
      hide Cleaned, LacksAll;
      var next := buf + " " + Cleaned(ls[0]);
      assert c !in next;
      GatherLacks(next, ls[1..], c);
    }
  }

  lemma {:induction false} SplitLacks(s: string, at: char, c: char)
    requires at == c || c !in s
    ensures LacksAll(Split(s, at), c)
    decreases |s|
  {
    var i := IndexOf(s, at);
    if i < |s| {
      assert at == c || c !in s[i + 1..];
      SplitLacks(s[i + 1..], at, c);
      assert c !in s[..i];
    }
  }

  lemma {:induction false} UnquotedLacks(parts: seq<string>, c: char)
    requires LacksAll(parts, c)
    ensures Unquoted(parts).Ok? ==> LacksAll(Unquoted(parts).value, c)
  {
    if parts == [] {
      NothingLacks(c);
    } else {
      hide *;
      LacksTail(parts, c);
      UnquotedLacks(parts[1..], c);
      TrimLacks(parts[0], c);
      UnquotedUnfolds(parts);
      var p, rest := Trim(parts[0]), Unquoted(parts[1..]);
      if |p| >= 2 && rest.Ok? {
        SliceLacks(p, 1, |p| - 1, c);
        LacksCons(p[1..|p| - 1], rest.value, c);
      }
    }
  }

  lemma ElementsLack(buf: string, c: char)
    requires c == ',' || c !in buf
    ensures Elements(buf).Ok? ==> LacksAll(Elements(buf).value, c)
  {
    hide Trim, TrimEnd, Split, Unquoted, LacksAll;
    var s := Trim(buf);
    if s != [] && s[0] == '[' {
      var t := TrimEnd(s[1..]);
      if t != [] {
        var inner := Trim(t[..|t| - 1]);
        if c != ',' {
          TrimLacks(buf, c);
          SliceLacks(s, 1, |s|, c);
          TrimLacks(s[1..], c);
          SliceLacks(t, 0, |t| - 1, c);
          TrimLacks(t[..|t| - 1], c);
        }
        NothingLacks(c);
        SplitLacks(inner, ',', c);
        UnquotedLacks(Split(inner, ','), c);
      }
    }
  }

  lemma TextParsed(s: string)
    ensures ToText(ParseKey(s)) == s && '#' !in ParseKey(s).path
  {
    var i := IndexOf(s, '#');
    if i < |s| {
      assert s[..i] + "#" + s[i + 1..] == s;
    }
  }

  lemma {:induction false} TextsParsed(ss: seq<string>)
    ensures Texts(ParseKeys(ss)) == ss
    ensures LacksAll(ss, ',') && LacksAll(ss, '\n') ==> AllReadable(ParseKeys(ss))
  {
    if ss != [] {
      TextParsed(ss[0]);
      TextsParsed(ss[1..]);
      assert ParseKeys(ss)[1..] == ParseKeys(ss[1..]);
      if LacksAll(ss, ',') && LacksAll(ss, '\n') {
        LacksTail(ss, ',');
        LacksTail(ss, '\n');
        hide LacksAll, ParseKey, ToText;
        var ks := ParseKeys(ss);
        forall i | 0 <= i < |ks|
          ensures Readable(ks[i])
        {
          assert i > 0 ==> ks[i] == ks[1..][i - 1];
        }
      }
    }
  }

  lemma ArrayReadable(after: string, ls: seq<string>)
    requires '\n' !in after && LacksAll(ls, '\n')
    ensures var r := ParseArray(after, ls); r.Ok? ==> AllReadable(r.value.0) && LacksAll(r.value.1, '\n')
  {
    hide TrimStart, Gather, Elements, LacksAll, AllReadable, ParseKeys;
    var s := TrimStart(after);
    if s != [] {
      TrimLacks(after, '\n');
      SliceLacks(s, 1, |s|, '\n');
      TrimLacks(s[1..], '\n');
      var first := TrimStart(s[1..]);
      GatherLacks(first, ls, '\n');
      var buf := Gather(first, ls).0;
      ElementsLack(buf, '\n');
      ElementsLack(buf, ',');
      if Elements(buf).Ok? {
        TextsParsed(Elements(buf).value);
      }
    }
  }

  lemma {:induction false} LinesReadable(ls: seq<string>, version: Option<nat>, checked: seq<Key>, trusted: seq<Key>)
    requires LacksAll(ls, '\n') && AllReadable(checked) && AllReadable(trusted)
    ensures var r := ParseLines(ls, version, checked, trusted);
            r.Ok? ==> AllReadable(r.value.checked) && AllReadable(r.value.trusted)
    decreases |ls|
  {
    if ls != [] {
      LacksTail(ls, '\n');
      CleanedLacks(ls[0], '\n');
      var line := Cleaned(ls[0]);
      hide Cleaned, ParseArray, ParseVersion, LacksAll, AllReadable, CHECKED, TRUSTED;
      if line == [] || "version" <= line {
        var v := if line == [] then version else
          var r := ParseVersion(line[|"version"|..]);
          if r.Ok? then Some(r.value) else None;
        LinesReadable(ls[1..], v, checked, trusted);
      } else if CHECKED <= line {
        var r := ListReadable(line, CHECKED, ls[1..]);
        if r.Ok? {
          LinesReadable(r.value.1, version, r.value.0, trusted);
        }
      } else if TRUSTED <= line {
        var r := ListReadable(line, TRUSTED, ls[1..]);
        if r.Ok? {
          LinesReadable(r.value.1, version, checked, r.value.0);
        }
      }
    }
  }

  lemma ListReadable(line: string, name: string, ls: seq<string>) returns (r: Result<(seq<Key>, seq<string>), Error>)
    requires name <= line && '\n' !in line && LacksAll(ls, '\n')
    ensures r == ParseArray(line[|name|..], ls)
    ensures r.Ok? ==> AllReadable(r.value.0) && LacksAll(r.value.1, '\n') && |r.value.1| <= |ls|
  {
    hide ParseArray, LacksAll, AllReadable;
    r := ParseArray(line[|name|..], ls);
    ArrayReadable(line[|name|..], ls);
    Remaining(line[|name|..], ls);
  }

  /** No key read from any text has a comma, a newline, or a `#` in its path. */
  lemma ParsedReadable(src: string)
    ensures Parse(src).Ok? ==> AllReadable(Parse(src).value.checked) && AllReadable(Parse(src).value.trusted)
  {
    LinesLack(src);
    LinesReadable(Lines(src), None, [], []);
    hide ParseLines, Lines;
  }

  // ----- counting -----

  function Hashes(s: string): nat {
    if s == [] then 0 else (if s[0] == '#' then 1 else 0) + Hashes(s[1..])
  }

  function HashesAll(ss: seq<string>): nat {
    if ss == [] then 0 else Hashes(ss[0]) + HashesAll(ss[1..])
  }

  lemma {:induction false} HashesConcat(s: string, t: string)
    ensures Hashes(s + t) == Hashes(s) + Hashes(t)
  {
    if s == [] {
      assert s + t == t;
    } else {
      assert (s + t)[1..] == s[1..] + t;
      HashesConcat(s[1..], t);
    }
  }

  lemma HashesCut(s: string, i: nat)
    requires i <= |s|
    ensures Hashes(s[i..]) <= Hashes(s) && Hashes(s[..i]) <= Hashes(s)
  {
    HashesConcat(s[..i], s[i..]);
    hide Hashes;
    assert s[..i] + s[i..] == s;
  }

  lemma HashesSlice(s: string, i: nat, j: nat)
    requires i <= j <= |s|
    ensures Hashes(s[i..j]) <= Hashes(s) && Hashes(s[i..]) <= Hashes(s) && Hashes(s[..j]) <= Hashes(s)
  {
    hide Hashes;
    HashesCut(s, i);
    HashesCut(s, j);
    HashesCut(s[..j], i);
    assert s[..j][i..] == s[i..j];
  }

  lemma HashesTrim(s: string)
    ensures Hashes(Trim(s)) <= Hashes(s) && Hashes(TrimEnd(s)) <= Hashes(s)
  {
    hide *;
    var t := TrimStart(s);
    StartParts(s);
    EndParts(t);
    EndParts(s);
    HashesCut(s, |s| - |t|);
    HashesCut(t, |TrimEnd(t)|);
    HashesCut(s, |TrimEnd(s)|);
  }

  /** A comment takes a `#` with it. */
  lemma {:induction false} HashesStripped(s: string, inString: bool)
    ensures Hashes(StripComment(s, inString)) <= Hashes(s)
    ensures !HashesKept(s, inString) ==> Hashes(StripComment(s, inString)) < Hashes(s)
  {
    if s != [] {
      HashesTail(s, inString);
      HashesStripped(s[1..], Flip(s[0], inString));
      StripStep(s, inString);
      var rest := StripComment(s[1..], Flip(s[0], inString));
      assert ([s[0]] + rest)[1..] == rest;
      hide HashesKept, StripComment, After;
    }
  }

  lemma {:induction false} HashesSplit(s: string, c: char)
    ensures HashesAll(Split(s, c)) <= Hashes(s)
    decreases |s|
  {
    var i := IndexOf(s, c);
    if i < |s| {
      HashesSplit(s[i + 1..], c);
      HashesConcat(s[..i], s[i..]);
      assert s[..i] + s[i..] == s;
      HashesSlice(s[i..], 1, |s| - i);
      assert s[i..][1..] == s[i + 1..];
      var parts := Split(s[i + 1..], c);
      assert ([s[..i]] + parts)[1..] == parts;
      hide Hashes;
    } else {
      assert [s][1..] == [];
    }
  }

  lemma HashesCons(s: string, ss: seq<string>)
    ensures HashesAll([s] + ss) == Hashes(s) + HashesAll(ss)
    ensures HashesAll([]) == 0
  {
    hide Hashes;
    assert ([s] + ss)[1..] == ss;
  }

  lemma HashesFirst(ss: seq<string>)
    requires ss != []
    ensures HashesAll(ss) == Hashes(ss[0]) + HashesAll(ss[1..])
  {
    hide Hashes;
  }

  lemma {:induction false} HashesUnquoted(parts: seq<string>)
    ensures Unquoted(parts).Ok? ==> HashesAll(Unquoted(parts).value) <= HashesAll(parts)
  {
    if parts != [] {
      hide *;
      HashesUnquoted(parts[1..]);
      HashesTrim(parts[0]);
      HashesFirst(parts);
      UnquotedUnfolds(parts);
      var p, rest := Trim(parts[0]), Unquoted(parts[1..]);
      if |p| >= 2 && rest.Ok? {
        HashesSlice(p, 1, |p| - 1);
        HashesCons(p[1..|p| - 1], rest.value);
      }
    }
  }

  lemma NothingHashed()
    ensures HashesAll([]) == 0
  {
  }

  lemma HashesElements(buf: string)
    ensures Elements(buf).Ok? ==> HashesAll(Elements(buf).value) <= Hashes(buf)
  {
    hide Trim, TrimEnd, Split, Unquoted, Hashes, HashesAll;
    var s := Trim(buf);
    NothingHashed();
    HashesTrim(buf);
    if s != [] {
      var t := TrimEnd(s[1..]);
      HashesSlice(s, 1, |s|);
      HashesTrim(s[1..]);
      if t != [] {
        var inner := Trim(t[..|t| - 1]);
        HashesSlice(t, 0, |t| - 1);
        HashesTrim(t[..|t| - 1]);
        HashesSplit(inner, ',');
        HashesUnquoted(Split(inner, ','));
      }
    }
  }

  lemma HashesEntry(k: Key)
    ensures Hashes(Cleaned(Entry(k))) <= Hashes(ToText(k))
    ensures !HashesKept(ToText(k), true) ==> Hashes(Cleaned(Entry(k))) < Hashes(ToText(k))
  {
    var t, tail := ToText(k), "\",";
    HashesText(t);
    HashesStripped(t + tail, true);
    if HashesKept(t + tail, true) {
      TailKept(t, tail, true);
    }
    EntryStripped(k);
    HashesTrim(StripComment(Entry(k), false));
    hide Hashes, StripComment, HashesKept, Entry, ToText, Trim;
  }

  lemma HashesText(t: string)
    ensures Hashes(t + "\",") == Hashes(t)
    ensures forall s: string :: Hashes("  \"" + s) == Hashes(s)
  {
    HashesConcat(t, "\",");
    assert "\","[1..] == "," && ","[1..] == "";
    forall s: string
      ensures Hashes("  \"" + s) == Hashes(s)
    {
      HashesConcat("  \"", s);
      assert "  \""[1..] == " \"" && " \""[1..] == "\"" && "\""[1..] == "";
    }
  }

  /** More text after it does not save a `#`. */
  lemma TailKept(t: string, tail: string, inString: bool)
    requires HashesKept(t + tail, inString)
    ensures HashesKept(t, inString)
  {
    forall i | 0 <= i < |t| && t[i] == '#'
      ensures (Quotes(t[..i]) % 2 == 0) == inString
    {
      assert (t + tail)[i] == '#' && (t + tail)[..i] == t[..i];
    }
  }

  lemma EntryStripped(k: Key)
    ensures StripComment(Entry(k), false) == "  \"" + StripComment(ToText(k) + "\",", true)
  {
    var rest := ToText(k) + "\",";
    StripPlain("  ", "\"" + rest, false);
    QuoteStep(rest, false);
    hide StripComment;
    assert Entry(k) == "  " + ("\"" + rest);
  }

  lemma {:induction false} HashesJoined(ks: seq<Key>)
    ensures Hashes(Joined(ks)) <= HashesAll(Texts(ks))
    ensures !AllHashesKept(ks) ==> Hashes(Joined(ks)) < HashesAll(Texts(ks))
  {
    if ks != [] {
      HashesJoined(ks[1..]);
      HashesEntry(ks[0]);
      var line, rest := Cleaned(Entry(ks[0])), Joined(ks[1..]);
      KeptTail(ks);
      hide Cleaned, Entry, HashesKept, AllHashesKept, Hashes;
      assert Texts(ks)[1..] == Texts(ks[1..]);
      HashesConcat(" " + line, rest);
      HashesSpace(line);
    }
  }

  lemma HashesSpace(s: string)
    ensures Hashes(" " + s) == Hashes(s)
  {
    assert (" " + s)[1..] == s;
  }

  lemma KeptTail(ks: seq<Key>)
    requires ks != []
    ensures AllHashesKept(ks) <==> HashesKept(ToText(ks[0]), true) && AllHashesKept(ks[1..])
  {
    hide HashesKept;
    assert ks == [ks[0]] + ks[1..];
    if AllHashesKept(ks) {
      assert forall i :: 0 <= i < |ks[1..]| ==> ks[1..][i] == ks[i + 1];
    }
  }

  // ----- an array that closes early -----

  /** A line that the reader refuses outside an array. */
  predicate Misplaced(l: string) {
    Cleaned(l) != [] && Cleaned(l)[0] in "\"]"
  }

  lemma EntryMisplaced(k: Key)
    ensures Misplaced(Entry(k))
  {
    EntryStripped(k);
    var q := "\"" + StripComment(ToText(k) + "\",", true);
    MarksAreSolid();
    hide StripComment, Entry, ToText, TrimStart;
    assert "  \"" + StripComment(ToText(k) + "\",", true) == "  " + q;
    TwoSpaces(q);
    TrimStartSpace(" " + q);
    TrimStartSpace(q);
    TrimStartSolid(q);
    StartStays(q);
  }

  lemma {:induction false} StartStays(s: string)
    requires s != [] && !IsSpace(s[0])
    ensures TrimEnd(s) != [] && TrimEnd(s)[0] == s[0]
  {
    if IsSpace(s[|s| - 1]) {
      StartStays(s[..|s| - 1]);
    }
  }

  /** If an entry closes the array, lines are left that do not belong outside. */
  lemma {:induction false} ClosedEarly(buf: string, ks: seq<Key>, tail: seq<string>)
    requires !ClosesNowhere(ks)
    ensures var rest := Gather(buf, Entries(ks) + (["]"] + tail)).1; rest != [] && Misplaced(rest[0])
    decreases |ks|
  {
    hide Misplaced, Cleaned, Entry;
    var ls := Entries(ks) + (["]"] + tail);
    NowhereTail(ks);
    EntriesSplit(ks, ["]"] + tail);
    EntryMisplaced(ks[0]);
    if ']' in buf {
      GatherStop(buf, ls);
    } else {
      var line, rest := Cleaned(Entry(ks[0])), Entries(ks[1..]) + (["]"] + tail);
      GatherStep(buf, ls);
      if ClosesNowhere(ks[1..]) {
        assert ']' in buf + " " + line;
        GatherStop(buf + " " + line, rest);
        hide Gather;
        if ks[1..] == [] {
          ClosingMisplaced();
          assert rest[0] == "]";
        } else {
          EntryMisplaced(ks[1..][0]);
          EntriesSplit(ks[1..], ["]"] + tail);
        }
      } else {
        ClosedEarly(buf + " " + line, ks[1..], tail);
      }
    }
  }

  lemma ClosingMisplaced()
    ensures Misplaced("]")
  {
    CloseLine();
  }

  lemma MisplacedRefused(ls: seq<string>, version: Option<nat>, checked: seq<Key>, trusted: seq<Key>)
    requires ls != [] && Misplaced(ls[0])
    ensures ParseLines(ls, version, checked, trusted) == Err(UnexpectedLine)
  {
    hide Cleaned, ParseArray, ParseVersion;
    assert "version"[0] == 'v' && CHECKED[0] == 'g' && TRUSTED[0] == 'g';
  }

  // ----- exactly the printable baselines -----

  lemma GatheredHashes(ks: seq<Key>)
    ensures Hashes("[" + Joined(ks) + " ]") == Hashes(Joined(ks))
  {
    HashesConcat("[" + Joined(ks), " ]");
    HashesConcat("[", Joined(ks));
    assert "["[1..] == "" && " ]"[1..] == "]" && "]"[1..] == "";
  }

  /** What the reader of arrays makes of printed keys, if no entry closes the array. */
  lemma ArrayOpen(ks: seq<Key>, tail: seq<string>)
    requires ClosesNowhere(ks)
    ensures var es := Elements("[" + Joined(ks) + " ]");
            ParseArray(" = [", Entries(ks) + (["]"] + tail)) ==
              if es.Err? then Err(es.error) else Ok((ParseKeys(es.value), tail))
  {
    hide *;
    OpenText();
    AfterName("[");
    EqualsText("[");
    OpenBuffer();
    GatherEntries("[", ks, tail);
    ArrayGathered(" = [", "= [", "[", Entries(ks) + (["]"] + tail), "[" + Joined(ks) + " ]", tail);
  }

  lemma OpenBuffer()
    ensures ']' !in "["
  {
  }

  lemma ArrayGathered(after: string, s: string, first: string, ls: seq<string>, buf: string, rest: seq<string>)
    requires TrimStart(after) == s && s != [] && s[0] == '=' && TrimStart(s[1..]) == first && Gather(first, ls) == (buf, rest)
    ensures var es := Elements(buf);
            ParseArray(after, ls) == if es.Err? then Err(es.error) else Ok((ParseKeys(es.value), rest))
  {
    hide TrimStart, Gather, Elements, ParseKeys;
  }

  lemma ArrayClosed(ks: seq<Key>, tail: seq<string>)
    requires !ClosesNowhere(ks)
    ensures var r := ParseArray(" = [", Entries(ks) + (["]"] + tail));
            r.Ok? ==> r.value.1 != [] && Misplaced(r.value.1[0])
  {
    hide *;
    OpenText();
    AfterName("[");
    EqualsText("[");
    ClosedEarly("[", ks, tail);
    var ls := Entries(ks) + (["]"] + tail);
    ArrayGathered(" = [", "= [", "[", ls, Gather("[", ls).0, Gather("[", ls).1);
  }

  /** Keys that read back as they are had nothing in them that the format cannot carry. */
  lemma FaithfulPrintable(ks: seq<Key>, es: seq<string>)
    requires AllReadable(ks) && ClosesNowhere(ks)
    requires Elements("[" + Joined(ks) + " ]") == Ok(es) && ParseKeys(es) == ks
    ensures AllPrintable(ks)
  {
    TextsParsed(es);
    HashesElements("[" + Joined(ks) + " ]");
    GatheredHashes(ks);
    HashesJoined(ks);
    hide Elements, Joined, Hashes, HashesAll, HashesKept, Cleaned, Entry, Quoted, ToText;
    forall i | 0 <= i < |ks|
      ensures Printable(ks[i])
    {
      assert Readable(ks[i]) && HashesKept(ToText(ks[i]), true);
      CleanedEntry(ks[i]);
      CommaQuoted(ks[i]);
    }
  }

  /** A list is read back as itself only if its keys are printable. */
  lemma ListFaithful(ks: seq<Key>, tail: seq<string>)
    requires AllReadable(ks) && (tail == [] || !Misplaced(tail[0]))
    requires ParseArray(" = [", Entries(ks) + (["]"] + tail)) == Ok((ks, tail))
    ensures AllPrintable(ks)
  {
    hide *;
    if ClosesNowhere(ks) {
      ArrayOpen(ks, tail);
      FaithfulPrintable(ks, Elements("[" + Joined(ks) + " ]").value);
    } else {
      ArrayClosed(ks, tail);
    }
  }

  /** What is left of the file after a list of it was read. */
  lemma ListTail(ks: seq<Key>, tail: seq<string>, version: Option<nat>, checked: seq<Key>, trusted: seq<Key>)
    ensures var r := ParseArray(" = [", Entries(ks) + (["]"] + tail));
            r.Ok? ==> r.value.1 == tail || ParseLines(r.value.1, version, checked, trusted) == Err(UnexpectedLine)
  {
    hide *;
    if ClosesNowhere(ks) {
      ArrayOpen(ks, tail);
    } else {
      ArrayClosed(ks, tail);
      var r := ParseArray(" = [", Entries(ks) + (["]"] + tail));
      if r.Ok? {
        MisplacedRefused(r.value.1, version, checked, trusted);
      }
    }
  }

  lemma BlankNotMisplaced()
    ensures !Misplaced("")
  {
    CleanedComment("");
  }

  /** The two lists of a file are read one after the other. */
  lemma ListsFaithful(version: nat, c: seq<Key>, t: seq<Key>)
    requires AllReadable(c) && AllReadable(t)
    requires ParseLines(ListLines(c, t), Some(version), [], []) == Ok(Policy(version, c, t))
    ensures AllPrintable(c) && AllPrintable(t)
  {
    hide Listing, ParseLines, AllPrintable, AllReadable, ParseArray, Entries, Misplaced;
    var r3 := Listing(TRUSTED, t) + [];
    var tail := [""] + r3;
    NamesDiffer();
    ListingRead(CHECKED, c, tail, Some(version), [], []);
    var rc := ParseArray(" = [", Entries(c) + (["]"] + tail));
    ListTail(c, tail, Some(version), rc.value.0, []);
    assert rc.value.1 == tail;
    SkipLine("", r3, Some(version), rc.value.0, []);
    ListingRead(TRUSTED, t, [], Some(version), rc.value.0, []);
    var rt := ParseArray(" = [", Entries(t) + (["]"] + []));
    ListTail(t, [], Some(version), rc.value.0, rt.value.0);
    assert rt.value.1 == [];
    EndOfLines(version, rc.value.0, rt.value.0);
    BlankNotMisplaced();
    ListFaithful(c, tail);
    ListFaithful(t, []);
  }

  lemma ReadableOneLine(ks: seq<Key>)
    requires AllReadable(ks)
    ensures OneLine(ks)
  {
    hide ToText;
    forall i | 0 <= i < |ks|
      ensures '\n' !in ToText(ks[i])
    {
      assert Readable(ks[i]);
    }
  }

  lemma PrintableBeforeSorting(ks: seq<Key>)
    requires AllPrintable(Sorted(ks))
    ensures AllPrintable(ks)
  {
    SortedFacts(ks);
    hide Printable, Sorted;
    forall i | 0 <= i < |ks|
      ensures Printable(ks[i])
    {
      assert ks[i] in Sorted(ks);
    }
  }

  /** A printed baseline is read back, sorted, exactly when all its keys are printable. */
  lemma ReadBackExact(b: Policy)
    requires b.version <= 0xFFFF_FFFF
    ensures Parse(Render(b)) == Ok(Policy(b.version, Sorted(b.checked), Sorted(b.trusted))) <==>
              AllPrintable(b.checked) && AllPrintable(b.trusted)
  {
    hide *;
    var c, t := Sorted(b.checked), Sorted(b.trusted);
    if AllPrintable(b.checked) && AllPrintable(b.trusted) {
      RoundTrip(b);
    }
    if Parse(Render(b)) == Ok(Policy(b.version, c, t)) {
      ParsedReadable(Render(b));
      ReadableOneLine(c);
      ReadableOneLine(t);
      RenderedRead(b);
      ListsFaithful(b.version, c, t);
      PrintableBeforeSorting(b.checked);
      PrintableBeforeSorting(b.trusted);
    }
  }

  // ----- commas -----

  /** Nothing but commas may stand in the way. */
  predicate Ordinary(k: Key) {
    var t := ToText(k);
    '#' !in k.path && '"' !in t && ']' !in t && '\n' !in t
  }

  predicate AllOrdinary(ks: seq<Key>) {
    forall i :: 0 <= i < |ks| ==> Ordinary(ks[i])
  }

  predicate NoCommas(ks: seq<Key>) {
    forall i :: 0 <= i < |ks| ==> ',' !in ToText(ks[i])
  }

  lemma {:induction false} NoQuotes(s: string)
    requires '"' !in s
    ensures Quotes(s) == 0
  {
    if s != [] {
      NoQuotes(s[1..]);
    }
  }

  lemma OrdinaryKept(t: string)
    requires '"' !in t
    ensures HashesKept(t, true)
  {
    forall i | 0 <= i < |t| && t[i] == '#'
      ensures (Quotes(t[..i]) % 2 == 0) == true
    {
      NoQuotes(t[..i]);
    }
  }

  lemma OrdinaryGathers(ks: seq<Key>)
    requires AllOrdinary(ks)
    ensures ClosesNowhere(ks) && Joined(ks) == Body(ks) && OneLine(ks) && (NoCommas(ks) ==> AllPrintable(ks))
  {
    hide HashesKept, ToText;
    forall i | 0 <= i < |ks|
      ensures HashesKept(ToText(ks[i]), true) && ']' !in ToText(ks[i]) && '\n' !in ToText(ks[i])
      ensures NoCommas(ks) ==> Printable(ks[i])
    {
      assert Ordinary(ks[i]);
      OrdinaryKept(ToText(ks[i]));
    }
    PrintableGathers(ks);
    JoinedIsBody(ks);
  }

  lemma OpenQuote(x: string)
    requires '"' !in x
    ensures var p := Trim("\"" + x); p != [] && p[0] == '"' && (|p| < 2 || p[|p| - 1] != '"')
  {
    var s := "\"" + x;
    MarksAreSolid();
    TrimStartSolid(s);
    StartStays(s);
    var p := TrimEnd(s);
    assert p <= s;
    assert |p| >= 2 ==> p[|p| - 1] == x[|p| - 2];
  }

  lemma SplitFirst(first: string, rest: string)
    requires ',' !in first
    ensures Split(first + "," + rest, ',') == [first] + Split(rest, ',')
  {
    var s := first + "," + rest;
    IndexAfter(first, ',', rest);
    assert s[..|first|] == first && s[|first| + 1..] == rest;
  }

  lemma CommaText(t: string, lead: string, i: nat, rest: string)
    requires i < |t| && t[i] == ','
    ensures lead + ("\"" + t + "\"") + "," + rest == lead + "\"" + t[..i] + "," + (t[i + 1..] + "\"" + "," + rest)
  {
    assert t == t[..i] + "," + t[i + 1..];
  }

  lemma LeadText(x: string)
    ensures " " + "\"" + x == " " + ("\"" + x) && "" + "\"" + x == "\"" + x
    ensures ',' !in x ==> ',' !in " " + "\"" + x && ',' !in "" + "\"" + x
  {
  }

  lemma OpenPiece(x: string, lead: string)
    requires '"' !in x && ',' !in x && (lead == "" || lead == " ")
    ensures ',' !in lead + "\"" + x
    ensures var p := Trim(lead + "\"" + x); p != [] && (|p| < 2 || p[|p| - 1] != '"')
  {
    hide *;
    OpenQuote(x);
    LeadText(x);
    if lead == " " {
      TrimStartSpace("\"" + x);
      TrimOfStart(" " + ("\"" + x), "\"" + x);
    }
  }

  /** A comma in a key cuts it inside its quotes. */
  lemma CommaCuts(k: Key, lead: string, rest: string)
    requires ',' in ToText(k) && '"' !in ToText(k) && (lead == "" || lead == " ")
    ensures Unquoted(Split(lead + Quoted(k) + "," + rest, ',')) == Err(NotQuoted)
  {
    var t := ToText(k);
    assert Quoted(k) == "\"" + t + "\"";
    hide *;
    IndexFound(t, ',');
    var i := IndexOf(t, ',');
    var first, after := lead + "\"" + t[..i], t[i + 1..] + "\"" + "," + rest;
    CommaText(t, lead, i, rest);
    OpenPiece(t[..i], lead);
    SplitFirst(first, after);
    UnquotedCons(first, Split(after, ','));
  }

  lemma IndexFound(s: string, c: char)
    requires c in s
    ensures IndexOf(s, c) < |s|
  {
    assert s[..|s|] == s;
  }

  lemma OrdinaryTail(ks: seq<Key>)
    requires AllOrdinary(ks) && !NoCommas(ks)
    ensures ks != [] && '"' !in ToText(ks[0])
    ensures ',' !in ToText(ks[0]) ==> AllOrdinary(ks[1..]) && !NoCommas(ks[1..])
  {
    hide ToText;
    assert Ordinary(ks[0]);
    assert ks == [ks[0]] + ks[1..];
  }

  lemma {:induction false} CommaParts(ks: seq<Key>, lead: string)
    requires AllOrdinary(ks) && !NoCommas(ks) && (lead == "" || lead == " ")
    ensures ks != [] && Unquoted(Split(lead + Quoted(ks[0]) + "," + Body(ks[1..]), ',')) == Err(NotQuoted)
    decreases |ks|
  {
    hide *;
    OrdinaryTail(ks);
    var rest := Body(ks[1..]);
    if ',' in ToText(ks[0]) {
      CommaCuts(ks[0], lead, rest);
    } else {
      CommaParts(ks[1..], " ");
      BodyUnfolds(ks[1..]);
      FirstPart(ks[0], lead, rest);
      UnquotedFirst(ks[0], lead, Split(rest, ','));
    }
  }

  lemma BodyUnfolds(ks: seq<Key>)
    requires ks != []
    ensures Body(ks) == " " + Quoted(ks[0]) + "," + Body(ks[1..])
  {
  }

  lemma ListWithComma(ks: seq<Key>, tail: seq<string>)
    requires AllOrdinary(ks) && !NoCommas(ks)
    ensures ParseArray(" = [", Entries(ks) + (["]"] + tail)) == Err(NotQuoted)
  {
    hide *;
    OrdinaryGathers(ks);
    ArrayOpen(ks, tail);
    CommaParts(ks, "");
    var solid := BodySolid(ks);
    Bracketed(solid);
    NoLead(Quoted(ks[0]), Body(ks[1..]));
  }

  lemma SortedOrdinary(ks: seq<Key>)
    requires AllOrdinary(ks)
    ensures AllOrdinary(Sorted(ks)) && (NoCommas(Sorted(ks)) <==> NoCommas(ks))
  {
    SortedFacts(ks);
    hide Ordinary, Sorted, ToText;
    forall i | 0 <= i < |Sorted(ks)|
      ensures Ordinary(Sorted(ks)[i]) && (NoCommas(ks) ==> ',' !in ToText(Sorted(ks)[i]))
    {
      assert Sorted(ks)[i] in ks;
    }
    forall i | 0 <= i < |ks|
      ensures NoCommas(Sorted(ks)) ==> ',' !in ToText(ks[i])
    {
      assert ks[i] in Sorted(ks);
    }
  }

  /** Among keys without quotes, brackets and newlines, commas alone decide, and the error is always the
      same. */
  lemma CommaExact(b: Policy)
    requires b.version <= 0xFFFF_FFFF && AllOrdinary(b.checked) && AllOrdinary(b.trusted)
    ensures Parse(Render(b)) ==
              if NoCommas(b.checked) && NoCommas(b.trusted) then Ok(Policy(b.version, Sorted(b.checked), Sorted(b.trusted)))
              else Err(NotQuoted)
  {
    hide *;
    var c, t := Sorted(b.checked), Sorted(b.trusted);
    SortedOrdinary(b.checked);
    SortedOrdinary(b.trusted);
    OrdinaryGathers(c);
    OrdinaryGathers(t);
    RenderedRead(b);
    CommaLists(b.version, c, t);
  }

  lemma CommaLists(version: nat, c: seq<Key>, t: seq<Key>)
    requires AllOrdinary(c) && AllOrdinary(t)
    ensures ParseLines(ListLines(c, t), Some(version), [], []) ==
              if NoCommas(c) && NoCommas(t) then Ok(Policy(version, c, t)) else Err(NotQuoted)
  {
    hide Listing, ParseLines, AllPrintable, ParseArray, Entries, AllOrdinary, NoCommas;
    var r3 := Listing(TRUSTED, t) + [];
    NamesDiffer();
    OrdinaryGathers(c);
    OrdinaryGathers(t);
    if !NoCommas(c) {
      ListWithComma(c, [""] + r3);
      ListingRead(CHECKED, c, [""] + r3, Some(version), [], []);
    } else if !NoCommas(t) {
      ListingStep(CHECKED, c, [""] + r3, Some(version), [], []);
      SkipLine("", r3, Some(version), c, []);
      ListWithComma(t, []);
      ListingRead(TRUSTED, t, [], Some(version), c, []);
    } else {
      ListsRead(version, c, t);
    }
  }

  predicate Bare(s: string) {
    ',' !in s && '"' !in s && ']' !in s && '\n' !in s && '#' !in s
  }

  /** With quotes around its comma, one key is read as two without an error. */
  lemma SilentSplit(x: string, y: string, version: nat)
    requires version <= 0xFFFF_FFFF && forall c :: c in x || c in y ==> c !in [',', '"', ']', '\n', '#']
    ensures Parse(Render(Policy(version, [Key(x + "\",\"" + y, None)], []))) ==
              Ok(Policy(version, [Key(x, None), Key(y, None)], []))
  {
    var k := Key(x + "\",\"" + y, None);
    SplitEntry(x, y);
    hide *;
    var tail := [""] + (Listing(TRUSTED, []) + []);
    SortedOne(k);
    RenderedRead(Policy(version, [k], []));
    ListingRead(CHECKED, [k], tail, Some(version), [], []);
    ArrayOpen([k], tail);
    NamesDiffer();
    SplitTail(version, [Key(x, None), Key(y, None)]);
    ListLinesAre([k], []);
  }

  lemma ListLinesAre(c: seq<Key>, t: seq<Key>)
    ensures ListLines(c, t) == Listing(CHECKED, c) + ([""] + (Listing(TRUSTED, t) + []))
  {
  }

  lemma SplitTail(version: nat, c: seq<Key>)
    ensures ParseLines([""] + (Listing(TRUSTED, []) + []), Some(version), c, []) == Ok(Policy(version, c, []))
  {
    hide Listing, ParseLines;
    SkipLine("", Listing(TRUSTED, []) + [], Some(version), c, []);
    ListingStep(TRUSTED, [], [], Some(version), c, []);
    EndOfLines(version, c, []);
    NamesDiffer();
  }

  lemma SortedOne(k: Key)
    ensures Sorted([k]) == [k] && Sorted([]) == [] && OneLine([])
    ensures '\n' !in ToText(k) ==> OneLine([k])
  {
    assert [k][1..] == [];
  }

  lemma SplitEntry(x: string, y: string)
    requires Bare(x) && Bare(y)
    ensures var k := Key(x + "\",\"" + y, None);
            && '\n' !in ToText(k) && ClosesNowhere([k])
            && Elements("[" + Joined([k]) + " ]") == Ok([x, y])
            && ParseKeys([x, y]) == [Key(x, None), Key(y, None)]
  {
    var k, kx, ky := Key(x + "\",\"" + y, None), Key(x, None), Key(y, None);
    SplitText(x, y);
    JoinedOne(k);
    SplitQuoted(x, y);
    QuotedText(k);
    hide *;
    var q := Quoted(k) + ",";
    SolidEntry(k);
    SplitParts(kx, ky);
    Bracketed(q);
    TextsOf(x, y);
  }

  lemma TextsOf(x: string, y: string)
    requires Bare(x) && Bare(y)
    ensures ParseKeys([x, y]) == [Key(x, None), Key(y, None)]
    ensures ToText(Key(x, None)) == x && ToText(Key(y, None)) == y && ',' !in x && ',' !in y
  {
    IndexNone(x, '#');
    IndexNone(y, '#');
    assert [x, y][1..] == [y] && [y][1..] == [];
    assert ParseKeys([y]) == [Key(y, None)] + ParseKeys([]);
  }

  lemma SplitText(x: string, y: string)
    requires Bare(x) && Bare(y)
    ensures var t := ToText(Key(x + "\",\"" + y, None)); '\n' !in t && ']' !in t && HashesKept(t, true)
    ensures ',' !in ToText(Key(x, None)) && ',' !in ToText(Key(y, None))
  {
    var t := x + "\",\"" + y;
    forall c | c in t
      ensures c != '\n' && c != ']' && c != '#'
    {
      assert c in x || c in "\",\"" || c in y;
    }
  }

  lemma SplitQuoted(x: string, y: string)
    ensures Quoted(Key(x + "\",\"" + y, None)) + "," == Quoted(Key(x, None)) + "," + (Quoted(Key(y, None)) + ",")
  {
  }

  lemma JoinedOne(k: Key)
    requires HashesKept(ToText(k), true) && ']' !in ToText(k)
    ensures ClosesNowhere([k]) && Joined([k]) == " " + (Quoted(k) + ",")
  {
    CleanedEntry(k);
    NowhereTail([k]);
    CommaQuoted(k);
    hide Cleaned, Entry, Quoted, HashesKept;
    assert [k][1..] == [];
    var q := Quoted(k) + ",";
    assert Joined([k]) == " " + q + [];
    assert " " + q + [] == " " + q;
  }

  lemma SplitParts(kx: Key, ky: Key)
    requires ',' !in ToText(kx) && ',' !in ToText(ky)
    ensures Unquoted(Split(Quoted(kx) + "," + (Quoted(ky) + ","), ',')) == Ok([ToText(kx), ToText(ky)])
  {
    hide *;
    var rest := Quoted(ky) + ",";
    FirstPart(kx, "", rest);
    NoLead(Quoted(kx), rest);
    UnquotedFirst(kx, "", Split(rest, ','));
    FirstPart(ky, "", "");
    NoLead(Quoted(ky), "");
    NoTail(Quoted(ky));
    UnquotedFirst(ky, "", Split("", ','));
    NothingLeft();
    assert [ToText(kx)] + ([ToText(ky)] + []) == [ToText(kx), ToText(ky)];
  }

  lemma NoTail(q: string)
    ensures q + "," + "" == q + ","
  {
  }
}
