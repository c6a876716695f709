/** Reading a printed baseline gives it back, sorted and without duplicates. */
module BaselineCorrect {
  import opened Strings
  import opened Wrappers
  import opened Baseline

  // ----- the order of keys -----

  lemma LessComesBefore(a: Key, b: Key)
    ensures Less(a, b) <==> ComesBefore(a, b)
  {
    LexLessIsPrecedes(a.path, b.path);
    PrecedesOrder(a.path, a.path, a.path);
    if a.name.Some? && b.name.Some? {
      LexLessIsPrecedes(a.name.value, b.name.value);
    }
    hide LexLess, Precedes;
  }

  lemma KeyOrder(a: Key, b: Key, c: Key)
    ensures !ComesBefore(a, a)
    ensures ComesBefore(a, b) && ComesBefore(b, c) ==> ComesBefore(a, c)
    ensures ComesBefore(a, b) || a == b || ComesBefore(b, a)
  {
    PrecedesOrder(a.path, b.path, c.path);
    PrecedesOrder(b.path, c.path, a.path);
    var n := (k: Key) => if k.name.Some? then k.name.value else "";
    PrecedesOrder(n(a), n(b), n(c));
    PrecedesOrder(n(b), n(c), n(a));
    hide Precedes;
  }

  lemma {:induction false} InsertFacts(k: Key, ks: seq<Key>)
    requires StrictlySorted(ks)
    ensures StrictlySorted(Insert(k, ks))
    ensures forall x :: x in Insert(k, ks) <==> x == k || x in ks
  {
    if ks != [] {
      KeyOrder(k, ks[0], ks[0]);
      LessComesBefore(k, ks[0]);
      TailSorted(ks);
      assert ks == [ks[0]] + ks[1..];
      hide Less, ComesBefore;
      if ComesBefore(k, ks[0]) {
        forall x | x in ks
          ensures ComesBefore(k, x)
        {
          KeyOrder(k, ks[0], x);
        }
        assert ([k] + ks)[1..] == ks;
        ConsSorted(k, ks);
      } else if k != ks[0] {
        InsertFacts(k, ks[1..]);
        ConsSorted(ks[0], Insert(k, ks[1..]));
      }
    }
  }

  lemma TailSorted(ks: seq<Key>)
    requires StrictlySorted(ks) && ks != []
    ensures StrictlySorted(ks[1..]) && forall x :: x in ks[1..] ==> ComesBefore(ks[0], x)
  {
    hide ComesBefore;
    forall i, j | 0 <= i < j < |ks[1..]|
      ensures ComesBefore(ks[1..][i], ks[1..][j])
    {
      assert ComesBefore(ks[i + 1], ks[j + 1]);
    }
  }

  lemma ConsSorted(k: Key, ks: seq<Key>)
    requires StrictlySorted(ks) && forall x :: x in ks ==> ComesBefore(k, x)
    ensures StrictlySorted([k] + ks)
  {
    hide ComesBefore;
    var all := [k] + ks;
    forall i, j | 0 <= i < j < |all|
      ensures ComesBefore(all[i], all[j])
    {
      assert all[j] == ks[j - 1];
      if i > 0 {
        assert all[i] == ks[i - 1];
      }
    }
  }

  /** The order and the members determine the result, so any sort followed by removing neighbours that
      are equal gives the same. */
  lemma {:induction false} SortedFacts(ks: seq<Key>)
    ensures StrictlySorted(Sorted(ks))
    ensures forall x :: x in Sorted(ks) <==> x in ks
  {
    if ks != [] {
      SortedFacts(ks[1..]);
      InsertFacts(ks[0], Sorted(ks[1..]));
      assert ks == [ks[0]] + ks[1..];
      hide *;
      assert forall x :: x in ks <==> x == ks[0] || x in ks[1..];
    }
  }

  /** What is printed, line by line. */
  lemma Layout(b: Policy)
    ensures RenderLines(b) ==
              [MANAGED, RATCHET, PROVEN, "version = " + Decimal(b.version), "", "grandfathered_checked = ["]
              + EntryLines(Sorted(b.checked)) + ["]", "", "grandfathered_trusted = ["]
              + EntryLines(Sorted(b.trusted)) + ["]"]
  {
    EntriesAre(Sorted(b.checked));
    EntriesAre(Sorted(b.trusted));
    SectionNames();
    hide Entries, EntryLines, Decimal, Sorted;
  }

  lemma SectionNames()
    ensures CHECKED + " = [" == "grandfathered_checked = [" && TRUSTED + " = [" == "grandfathered_trusted = ["
  {
  }

  ghost function EntryLines(ks: seq<Key>): seq<string> {
    seq(|ks|, (i: nat) requires i < |ks| => "  \"" + (ks[i].path + if ks[i].name.Some? then "#" + ks[i].name.value else "") + "\",")
  }

  lemma {:induction false} EntriesAre(ks: seq<Key>)
    ensures Entries(ks) == EntryLines(ks)
  {
    if ks != [] {
      EntriesAre(ks[1..]);
      assert ks[0].name.Some? ==> ToText(ks[0]) == ks[0].path + ("#" + ks[0].name.value);
      assert ks[0].name.None? ==> ToText(ks[0]) == ks[0].path + "";
    }
  }

  lemma HasMember(ks: seq<Key>)
    ensures ks == [] || exists x :: x in ks
  {
    assert ks != [] ==> ks[0] in ks;
  }

  lemma {:induction false} SortedUnique(ks: seq<Key>, ms: seq<Key>)
    requires StrictlySorted(ks) && StrictlySorted(ms) && forall x :: x in ks <==> x in ms
    ensures ks == ms
    decreases |ks|
  {
    HasMember(ks);
    HasMember(ms);
    if ks != [] && ms != [] {
      TailSorted(ks);
      TailSorted(ms);
      SameHead(ks, ms);
      SortedUnique(ks[1..], ms[1..]);
      assert ks == [ks[0]] + ks[1..] && ms == [ms[0]] + ms[1..];
    }
  }

  lemma SameHead(ks: seq<Key>, ms: seq<Key>)
    requires ks != [] && ms != [] && forall x :: x in ks <==> x in ms
    requires forall x :: x in ks[1..] ==> ComesBefore(ks[0], x)
    requires forall x :: x in ms[1..] ==> ComesBefore(ms[0], x)
    ensures ks[0] == ms[0] && forall x :: x in ks[1..] <==> x in ms[1..]
  {
    KeyOrder(ks[0], ms[0], ks[0]);
    KeyOrder(ms[0], ks[0], ms[0]);
    hide ComesBefore;
    assert forall x :: x in ks <==> x == ks[0] || x in ks[1..] by { Cons(ks); }
    assert forall x :: x in ms <==> x == ms[0] || x in ms[1..] by { Cons(ms); }
    assert ks[0] in ms && ms[0] in ks;
    assert !ComesBefore(ks[0], ks[0]) && !ComesBefore(ms[0], ms[0]);
  }

  lemma Cons(ks: seq<Key>)
    requires ks != []
    ensures forall x :: x in ks <==> x == ks[0] || x in ks[1..]
  {
    assert ks == [ks[0]] + ks[1..];
  }

  lemma SortedTwice(ks: seq<Key>)
    ensures Sorted(Sorted(ks)) == Sorted(ks)
  {
    SortedFacts(ks);
    SortedFacts(Sorted(ks));
    hide *;
    SortedUnique(Sorted(Sorted(ks)), Sorted(ks));
  }

  // ----- lines -----

  predicate Unbroken(l: string) {
    '\n' !in l && (l == [] || l[|l| - 1] != '\r')
  }

  lemma IndexAfter(l: string, c: char, rest: string)
    requires c !in l
    ensures IndexOf(l + [c] + rest, c) == |l|
  {
    var s := l + [c] + rest;
    var i := IndexOf(s, c);
    assert s[|l|] == c;
    forall j | 0 <= j < |l|
      ensures s[j] != c
    {
      assert s[j] == l[j];
    }
    forall j | 0 <= j < i
      ensures s[j] != c
    {
      assert s[..i][j] == s[j];
    }
  }

  lemma IndexNone(s: string, c: char)
    requires c !in s
    ensures IndexOf(s, c) == |s|
  {
  }

  lemma FirstLine(l: string, rest: string)
    requires Unbroken(l)
    ensures Lines(l + "\n" + rest) == [l] + Lines(rest)
  {
    IndexAfter(l, '\n', rest);
    var s := l + "\n" + rest;
    assert s[..|l|] == l && s[|l| + 1..] == rest;
    assert |l| > 0 ==> s[|l| - 1] == l[|l| - 1];
  }

  lemma {:induction false} LinesOfUnlines(ls: seq<string>)
    requires forall l :: l in ls ==> Unbroken(l)
    ensures Lines(Unlines(ls)) == ls
  {
    if ls != [] {
      assert Unbroken(ls[0]);
      LinesOfUnlines(ls[1..]);
      FirstLine(ls[0], Unlines(ls[1..]));
      hide Unbroken, Lines;
      assert ls == [ls[0]] + ls[1..];
    }
  }

  // ----- one line -----

  lemma {:induction false} StripPlain(s: string, rest: string, inString: bool)
    requires '"' !in s && ('#' !in s || inString)
    ensures StripComment(s + rest, inString) == s + StripComment(rest, inString)
  {
    if s == [] {
      assert s + rest == rest;
    } else {
      assert (s + rest)[1..] == s[1..] + rest;
      StripPlain(s[1..], rest, inString);
      assert s == [s[0]] + s[1..];
    }
  }

  lemma TrimStartSpace(s: string)
    ensures TrimStart(" " + s) == TrimStart(s)
  {
    assert (" " + s)[1..] == s;
    assert IsSpace((" " + s)[0]);
  }

  lemma TrimStartSolid(s: string)
    requires s != [] && !IsSpace(s[0])
    ensures TrimStart(s) == s
  {
  }

  lemma MarksAreSolid()
    ensures !IsSpace('=') && !IsSpace('[') && !IsSpace('"') && !IsSpace('v') && !IsSpace('g')
  {
  }

  lemma TrimSolid(s: string)
    requires s == [] || (!IsSpace(s[0]) && !IsSpace(s[|s| - 1]))
    ensures Trim(s) == s
  {
  }

  predicate Solid(s: string) {
    s != [] && !IsSpace(s[0]) && !IsSpace(s[|s| - 1])
  }

  lemma TrimOne(q: string)
    requires Solid(q)
    ensures Trim(" " + q) == q
  {
    assert (" " + q)[1..] == q;
    TrimSolid(q);
  }

  lemma SolidEnds(s: string)
    requires s != [] && s[0] in "\"[" && s[|s| - 1] in "\",]"
    ensures Solid(s)
  {
  }

  lemma CleanedSolid(s: string)
    requires '"' !in s && '#' !in s && (s == [] || (!IsSpace(s[0]) && !IsSpace(s[|s| - 1])))
    ensures Cleaned(s) == s
  {
    StripPlain(s, [], false);
    assert s + [] == s && StripComment([], false) == [];
    TrimSolid(s);
  }

  function Quotes(s: string): nat {
    if s == [] then 0 else (if s[0] == '"' then 1 else 0) + Quotes(s[1..])
  }

  /** No `#` in the text is taken for a comment, if the text stands in quotes or not: an even or an odd
      number of quotes comes before each. */
  predicate HashesKept(t: string, inString: bool) {
    forall i :: 0 <= i < |t| && t[i] == '#' ==> (Quotes(t[..i]) % 2 == 0) == inString
  }

  /** A key that the file format can carry. */
  predicate Printable(k: Key) {
    var t := ToText(k);
    '#' !in k.path && ',' !in t && ']' !in t && '\n' !in t && HashesKept(t, true)
  }

  predicate AllPrintable(ks: seq<Key>) {
    forall i :: 0 <= i < |ks| ==> Printable(ks[i])
  }

  function Quoted(k: Key): string {
    "\"" + ToText(k) + "\""
  }

  /** Whether a character after `s` is in quotes. */
  function After(s: string, inString: bool): bool {
    if Quotes(s) % 2 == 0 then inString else !inString
  }

  /** The state after one more character. */
  function Flip(c: char, inString: bool): bool {
    if c == '"' then !inString else inString
  }

  lemma HashesTail(s: string, inString: bool)
    requires s != []
    ensures HashesKept(s, inString) <==>
              (s[0] == '#' ==> inString) && HashesKept(s[1..], Flip(s[0], inString))
    ensures After(s, inString) == After(s[1..], Flip(s[0], inString))
  {
    var flipped := Flip(s[0], inString);
    forall i | 0 < i < |s|
      ensures ((Quotes(s[..i]) % 2 == 0) == inString) <==> ((Quotes(s[1..][..i - 1]) % 2 == 0) == flipped)
    {
      assert s[..i][1..] == s[1..][..i - 1];
    }
    if HashesKept(s, inString) {
      assert s[0] == '#' ==> Quotes(s[..0]) == 0;
      forall j | 0 <= j < |s[1..]| && s[1..][j] == '#'
        ensures (Quotes(s[1..][..j]) % 2 == 0) == flipped
      {
        assert s[j + 1] == '#';
      }
    }
    if (s[0] == '#' ==> inString) && HashesKept(s[1..], flipped) {
      forall i | 0 <= i < |s| && s[i] == '#'
        ensures (Quotes(s[..i]) % 2 == 0) == inString
      {
        if i > 0 {
          assert s[1..][i - 1] == '#';
        } else {
          assert s[..0] == [];
        }
      }
    }
  }

  lemma StripStep(s: string, inString: bool)
    requires s != []
    ensures StripComment(s, inString) ==
              if s[0] == '#' && !inString then [] else [s[0]] + StripComment(s[1..], Flip(s[0], inString))
  {
  }

  lemma ConsConcat(s: string, rest: string)
    requires s != []
    ensures s + rest == [s[0]] + (s[1..] + rest) && (s + rest)[0] == s[0] && (s + rest)[1..] == s[1..] + rest && s + rest != []
  {
  }

  lemma {:induction false} StripKept(s: string, rest: string, inString: bool)
    requires HashesKept(s, inString)
    ensures StripComment(s + rest, inString) == s + StripComment(rest, After(s, inString))
  {
    if s == [] {
      assert s + rest == rest;
      assert StripComment(rest, After(s, inString)) == s + StripComment(rest, After(s, inString));
    } else {
      hide *;
      var next := Flip(s[0], inString);
      HashesTail(s, inString);
      ConsConcat(s, rest);
      StripStep(s + rest, inString);
      StripKept(s[1..], rest, next);
      ConsConcat(s, StripComment(rest, After(s, inString)));
    }
  }

  lemma HashFree(s: string, inString: bool)
    requires '#' !in s
    ensures StripComment(s, inString) == s
  {
    StripKept(s, "", inString);
    NoText();
    assert s + "" == s;
    assert StripComment("", After(s, inString)) == "";
  }

  lemma CommentInEntry(t: string)
    requires HashesKept(t, true)
    ensures StripComment("  " + ("\"" + (t + "\",")), false) == "  " + ("\"" + (t + "\","))
  {
    var tail := "\",";
    StripPlain("  ", "\"" + (t + tail), false);
    QuoteStep(t + tail, false);
    StripKept(t, tail, true);
    HashFree(tail, After(t, true));
  }

  lemma NoText()
    ensures StripComment("", false) == ""
  {
  }

  lemma QuoteStep(rest: string, inString: bool)
    ensures StripComment("\"" + rest, inString) == "\"" + StripComment(rest, !inString)
  {
    assert ("\"" + rest)[1..] == rest;
  }

  lemma EntryText(t: string)
    ensures "  " + ("\"" + (t + "\",")) == "  " + ("\"" + t + "\"" + ",")
  {
  }

  lemma SolidEntry(k: Key)
    ensures Solid(Quoted(k) + ",")
  {
    QuotedText(k);
    hide Quoted;
    SolidEnds(Quoted(k) + ",");
  }

  lemma CleanedEntry(k: Key)
    requires HashesKept(ToText(k), true)
    ensures Cleaned(Entry(k)) == Quoted(k) + ","
  {
    assert Quoted(k) == "\"" + ToText(k) + "\"";
    hide *;
    CommentInEntry(ToText(k));
    EntryText(ToText(k));
    EntryQuoted(k);
    SolidEntry(k);
    CleanedIs(Entry(k));
    TrimTwo(Quoted(k) + ",");
  }

  lemma EntryQuoted(k: Key)
    ensures Entry(k) == "  " + (Quoted(k) + ",")
  {
  }

  lemma CleanedIs(l: string)
    ensures Cleaned(l) == Trim(StripComment(l, false))
  {
  }

  lemma TrimOfStart(s: string, t: string)
    requires TrimStart(s) == TrimStart(t)
    ensures Trim(s) == Trim(t)
  {
  }

  lemma TrimTwo(q: string)
    requires Solid(q)
    ensures Trim("  " + q) == q
  {
    TrimSolid(q);
    hide *;
    TrimStartSpace(" " + q);
    TrimStartSpace(q);
    TwoSpaces(q);
    TrimOfStart("  " + q, q);
  }

  lemma TwoSpaces(q: string)
    ensures "  " + q == " " + (" " + q)
  {
  }

  // ----- an array -----

  /** The gathered text of the entries. */
  function Body(ks: seq<Key>): string {
    if ks == [] then [] else " " + Quoted(ks[0]) + "," + Body(ks[1..])
  }

  function Texts(ks: seq<Key>): seq<string> {
    if ks == [] then [] else [ToText(ks[0])] + Texts(ks[1..])
  }

  /** What is gathered from the lines of the entries. */
  function Joined(ks: seq<Key>): string {
    if ks == [] then [] else " " + Cleaned(Entry(ks[0])) + Joined(ks[1..])
  }

  predicate ClosesNowhere(ks: seq<Key>) {
    forall i :: 0 <= i < |ks| ==> ']' !in Cleaned(Entry(ks[i]))
  }

  lemma NowhereTail(ks: seq<Key>)
    requires ks != []
    ensures ClosesNowhere(ks) <==> ']' !in Cleaned(Entry(ks[0])) && ClosesNowhere(ks[1..])
  {
    hide Cleaned, Entry;
    assert ks == [ks[0]] + ks[1..];
    if ClosesNowhere(ks) {
      assert forall i :: 0 <= i < |ks[1..]| ==> ks[1..][i] == ks[i + 1];
    }
  }

  lemma StillOpen(buf: string, line: string)
    requires ']' !in buf && ']' !in line
    ensures ']' !in buf + " " + line
  {
  }

  lemma PrintableTail(ks: seq<Key>)
    requires AllPrintable(ks) && ks != []
    ensures Printable(ks[0]) && AllPrintable(ks[1..])
  {
    hide Printable;
    assert forall i :: 0 <= i < |ks[1..]| ==> ks[1..][i] == ks[i + 1];
  }

  lemma GatherStep(buf: string, ls: seq<string>)
    requires ']' !in buf && ls != []
    ensures Gather(buf, ls) == Gather(buf + " " + Cleaned(ls[0]), ls[1..])
  {
    hide Cleaned;
  }

  lemma GatherStop(buf: string, ls: seq<string>)
    requires ']' in buf
    ensures Gather(buf, ls) == (buf, ls)
  {
  }

  lemma CloseLine()
    ensures Cleaned("]") == "]"
  {
    CleanedSolid("]");
  }

  lemma ClosedText(buf: string)
    ensures buf + " " + "]" == buf + " ]" && ']' in buf + " ]"
  {
    var next := buf + " ]";
    assert next[|buf| + 1] == ']';
  }

  lemma GatherLast(buf: string, tail: seq<string>)
    requires ']' !in buf
    ensures Gather(buf, ["]"] + tail) == (buf + " ]", tail)
  {
    hide *;
    CloseLine();
    ConsLine("]", tail);
    GatherStep(buf, ["]"] + tail);
    ClosedText(buf);
    GatherStop(buf + " ]", tail);
  }

  lemma EntriesSplit(ks: seq<Key>, tail: seq<string>)
    requires ks != []
    ensures Entries(ks) + tail == [Entry(ks[0])] + (Entries(ks[1..]) + tail)
  {
  }

  lemma JoinedUnfolds(ks: seq<Key>)
    requires ks != []
    ensures Joined(ks) == " " + Cleaned(Entry(ks[0])) + Joined(ks[1..])
  {
    hide Cleaned, Entry;
  }

  lemma Append(buf: string, line: string, rest: string)
    ensures buf + " " + line + rest == buf + (" " + line + rest)
  {
  }

  lemma JoinedSplit(buf: string, ks: seq<Key>)
    requires ks != []
    ensures buf + " " + Cleaned(Entry(ks[0])) + Joined(ks[1..]) == buf + Joined(ks)
  {
    hide *;
    JoinedUnfolds(ks);
    Append(buf, Cleaned(Entry(ks[0])), Joined(ks[1..]));
  }

  /** Up to the closing line, if none closes the array before. */
  lemma {:induction false} GatherEntries(buf: string, ks: seq<Key>, tail: seq<string>)
    requires ']' !in buf && ClosesNowhere(ks)
    ensures Gather(buf, Entries(ks) + (["]"] + tail)) == (buf + Joined(ks) + " ]", tail)
    decreases |ks|
  {
    if ks == [] {
      assert Entries(ks) + (["]"] + tail) == ["]"] + tail;
      GatherLast(buf, tail);
      assert buf + Joined(ks) == buf;
    } else {
      hide *;
      NowhereTail(ks);
      var line, rest := Cleaned(Entry(ks[0])), Entries(ks[1..]) + (["]"] + tail);
      StillOpen(buf, line);
      EntriesSplit(ks, ["]"] + tail);
      ConsLine(Entry(ks[0]), rest);
      GatherStep(buf, [Entry(ks[0])] + rest);
      GatherEntries(buf + " " + line, ks[1..], tail);
      JoinedSplit(buf, ks);
    }
  }

  predicate AllHashesKept(ks: seq<Key>) {
    forall i :: 0 <= i < |ks| ==> HashesKept(ToText(ks[i]), true)
  }

  lemma {:induction false} JoinedIsBody(ks: seq<Key>)
    requires AllHashesKept(ks)
    ensures Joined(ks) == Body(ks)
  {
    if ks != [] {
      assert HashesKept(ToText(ks[0]), true);
      CleanedEntry(ks[0]);
      hide HashesKept, Cleaned, Entry, Quoted;
      assert forall i :: 0 <= i < |ks[1..]| ==> ks[1..][i] == ks[i + 1];
      JoinedIsBody(ks[1..]);
      assert " " + (Quoted(ks[0]) + ",") == " " + Quoted(ks[0]) + ",";
    }
  }

  lemma CommaQuoted(k: Key)
    ensures ']' in Quoted(k) + "," <==> ']' in ToText(k)
  {
  }

  lemma PrintableGathers(ks: seq<Key>)
    requires AllHashesKept(ks) && forall i :: 0 <= i < |ks| ==> ']' !in ToText(ks[i])
    ensures ClosesNowhere(ks)
  {
    hide HashesKept, Cleaned, Entry, Quoted;
    forall i | 0 <= i < |ks|
      ensures ']' !in Cleaned(Entry(ks[i]))
    {
      CleanedEntry(ks[i]);
      CommaQuoted(ks[i]);
    }
  }

  lemma QuotedText(k: Key)
    ensures var q := Quoted(k); |q| >= 2 && q[0] == '"' == q[|q| - 1] && q[1..|q| - 1] == ToText(k)
  {
  }

  lemma QuotedTrimmed(k: Key, lead: string)
    requires lead == "" || lead == " "
    ensures Trim(lead + Quoted(k)) == Quoted(k)
  {
    QuotedText(k);
    SolidEnds(Quoted(k));
    hide *;
    TrimOne(Quoted(k));
    TrimSolidText(Quoted(k));
    NoLeadText(Quoted(k));
  }

  lemma NoLeadText(q: string)
    ensures "" + q == q
  {
  }

  lemma TrimSolidText(s: string)
    requires Solid(s)
    ensures Trim(s) == s
  {
    TrimSolid(s);
  }

  lemma NoComma(k: Key, lead: string)
    requires ',' !in ToText(k) && (lead == "" || lead == " ")
    ensures ',' !in lead + Quoted(k)
  {
    assert forall c :: c in lead + Quoted(k) ==> c == ' ' || c == '"' || c in ToText(k);
  }

  lemma FirstPart(k: Key, lead: string, rest: string)
    requires ',' !in ToText(k) && (lead == "" || lead == " ")
    ensures Split(lead + Quoted(k) + "," + rest, ',') == [lead + Quoted(k)] + Split(rest, ',')
  {
    NoComma(k, lead);
    var first := lead + Quoted(k);
    hide Quoted;
    var s := first + "," + rest;
    IndexAfter(first, ',', rest);
    assert s[..|first|] == first && s[|first| + 1..] == rest;
  }

  lemma UnquotedFirst(k: Key, lead: string, parts: seq<string>)
    requires lead == "" || lead == " "
    ensures Unquoted([lead + Quoted(k)] + parts) ==
              if Unquoted(parts).Ok? then Ok([ToText(k)] + Unquoted(parts).value) else Unquoted(parts)
  {
    QuotedText(k);
    QuotedTrimmed(k, lead);
    hide Quoted, Trim;
    UnquotedCons(lead + Quoted(k), parts);
  }

  lemma UnquotedUnfolds(parts: seq<string>)
    requires parts != []
    ensures var p, rest := Trim(parts[0]), Unquoted(parts[1..]);
            Unquoted(parts) ==
              if p == [] then rest
              else if |p| < 2 || p[0] != '"' || p[|p| - 1] != '"' then Err(NotQuoted)
              else if rest.Ok? then Ok([p[1..|p| - 1]] + rest.value)
              else rest
  {
    hide Trim;
  }

  lemma UnquotedCons(part: string, parts: seq<string>)
    ensures var p, rest := Trim(part), Unquoted(parts);
            Unquoted([part] + parts) ==
              if p == [] then rest
              else if |p| < 2 || p[0] != '"' || p[|p| - 1] != '"' then Err(NotQuoted)
              else if rest.Ok? then Ok([p[1..|p| - 1]] + rest.value)
              else rest
  {
    hide *;
    var all := [part] + parts;
    UnquotedUnfolds(all);
    assert all[0] == part && all[1..] == parts;
  }

  /** The parts of the body between its commas, with or without the first space. */
  lemma {:induction false} PartsOfBody(ks: seq<Key>, lead: string)
    requires AllPrintable(ks) && (lead == "" || lead == " ") && ks != []
    ensures Unquoted(Split(lead + Quoted(ks[0]) + "," + Body(ks[1..]), ',')) == Ok(Texts(ks))
    decreases |ks|
  {
    PrintableTail(ks);
    var rest := Body(ks[1..]);
    FirstPart(ks[0], lead, rest);
    UnquotedFirst(ks[0], lead, Split(rest, ','));
    if ks[1..] == [] {
      NothingLeft();
      assert Texts(ks) == [ToText(ks[0])] + [];
    } else {
      PartsOfBody(ks[1..], " ");
      assert rest == " " + Quoted(ks[1..][0]) + "," + Body(ks[1..][1..]);
    }
  }

  lemma NothingLeft()
    ensures Unquoted(Split("", ',')) == Ok([])
  {
    IndexNone("", ',');
    assert Split("", ',') == [""] && [""][1..] == [];
    assert Trim("") == "";
  }

  lemma BracketText(solid: string)
    ensures var buf := "[" + (" " + solid) + " ]";
            && buf[0] == '[' && buf[|buf| - 1] == ']' && buf[1..] == " " + solid + " ]"
            && buf[1..][|buf| - 2] == ']' && buf[1..][..|buf| - 2] == " " + solid + " "
  {
  }

  lemma ElementsOf(buf: string, t: string, inner: string, solid: string)
    requires Trim(buf) == buf && buf != [] && buf[0] == '[' && buf[1..] == t
    requires TrimEnd(t) == t && t != [] && t[|t| - 1] == ']' && t[..|t| - 1] == inner
    requires Trim(inner) == solid && solid != []
    ensures Elements(buf) == Unquoted(Split(solid, ','))
  {
    hide Trim, TrimEnd, Split, Unquoted;
  }

  /** Brackets and outer spaces come off. */
  lemma Bracketed(solid: string)
    requires Solid(solid)
    ensures Elements("[" + (" " + solid) + " ]") == Unquoted(Split(solid, ','))
  {
    var buf, t, inner := "[" + (" " + solid) + " ]", " " + solid + " ]", " " + solid + " ";
    BracketText(solid);
    SolidEnds(buf);
    TrimSolid(buf);
    TrimBoth(solid);
    assert TrimEnd(t) == t;
    hide *;
    ElementsOf(buf, t, inner, solid);
  }

  lemma EmptyBrackets()
    ensures Elements("[" + "" + " ]") == Ok([])
  {
    var buf := "[" + "" + " ]";
    assert buf == "[ ]";
    TrimSolid(buf);
    assert buf[1..] == " ]" && TrimEnd(" ]") == " ]" && " ]"[..1] == " ";
    assert " "[1..] == "" && TrimStart(" ") == "";
    assert Trim(" ") == "";
  }

  lemma BodySolid(ks: seq<Key>) returns (solid: string)
    requires ks != []
    ensures solid == Quoted(ks[0]) + "," + Body(ks[1..]) && Body(ks) == " " + solid && Solid(solid)
  {
    solid := Quoted(ks[0]) + "," + Body(ks[1..]);
    assert Body(ks) == " " + solid;
    BodyEnds(ks);
    QuotedText(ks[0]);
    hide Body, Quoted;
    assert solid[0] == '"' && solid[|solid| - 1] == ',';
    SolidEnds(solid);
  }

  lemma ElementsOfBody(ks: seq<Key>)
    requires AllPrintable(ks)
    ensures Elements("[" + Body(ks) + " ]") == Ok(Texts(ks))
  {
    if ks == [] {
      EmptyBrackets();
    } else {
      var solid := BodySolid(ks);
      PartsOfBody(ks, "");
      Bracketed(solid);
      hide *;
      NoLead(Quoted(ks[0]), Body(ks[1..]));
    }
  }

  lemma NoLead(q: string, rest: string)
    ensures "" + q + "," + rest == q + "," + rest
  {
    assert "" + q == q;
  }

  lemma {:induction false} BodyEnds(ks: seq<Key>)
    requires ks != []
    ensures Body(ks)[|Body(ks)| - 1] == ','
  {
    if ks[1..] != [] {
      BodyEnds(ks[1..]);
    }
  }

  lemma TrimBoth(q: string)
    requires q != [] && !IsSpace(q[0]) && !IsSpace(q[|q| - 1])
    ensures Trim(" " + q + " ") == q
  {
    var s := " " + q + " ";
    assert s[1..] == q + " ";
    assert TrimStart(s[1..]) == q + " ";
    assert (q + " ")[..|q|] == q;
    assert TrimEnd(q) == q;
  }

  lemma KeyRead(k: Key)
    requires '#' !in k.path
    ensures ParseKey(ToText(k)) == k
  {
    if k.name.Some? {
      IndexAfter(k.path, '#', k.name.value);
      assert ToText(k)[..|k.path|] == k.path && ToText(k)[|k.path| + 1..] == k.name.value;
    } else {
      IndexNone(k.path, '#');
    }
  }

  lemma {:induction false} KeysRead(ks: seq<Key>)
    requires AllPrintable(ks)
    ensures ParseKeys(Texts(ks)) == ks
  {
    if ks != [] {
      PrintableTail(ks);
      KeyRead(ks[0]);
      KeysRead(ks[1..]);
      assert Texts(ks)[1..] == Texts(ks[1..]);
    }
  }

  lemma EqualsText(d: string)
    ensures " = " + d == " " + ("= " + d) && ("= " + d)[1..] == " " + d && ("= " + d)[0] == '='
  {
  }

  lemma AfterName(d: string)
    requires Solid(d)
    ensures TrimStart(" = " + d) == "= " + d && TrimStart(("= " + d)[1..]) == d
  {
    MarksAreSolid();
    hide TrimStart, IsSpace;
    EqualsText(d);
    TrimStartSpace("= " + d);
    TrimStartSolid("= " + d);
    TrimStartSpace(d);
    TrimStartSolid(d);
  }

  lemma OpenText()
    ensures " = " + "[" == " = [" && "= " + "[" == "= [" && Solid("[")
  {
  }

  lemma PrintableKept(ks: seq<Key>)
    requires AllPrintable(ks)
    ensures AllHashesKept(ks) && forall i :: 0 <= i < |ks| ==> ']' !in ToText(ks[i])
  {
    hide HashesKept;
  }

  lemma ArrayRead(ks: seq<Key>, tail: seq<string>)
    requires AllPrintable(ks)
    ensures ParseArray(" = [", Entries(ks) + (["]"] + tail)) == Ok((ks, tail))
  {
    hide *;
    OpenText();
    AfterName("[");
    PrintableKept(ks);
    PrintableGathers(ks);
    GatherEntries("[", ks, tail);
    JoinedIsBody(ks);
    ElementsOfBody(ks);
    KeysRead(ks);
    EqualsText("[");
    ArrayIs(" = [", "= [", "[", Entries(ks) + (["]"] + tail), "[" + Body(ks) + " ]", tail, Texts(ks), ks);
  }

  lemma ArrayIs(after: string, s: string, first: string, ls: seq<string>, buf: string, rest: seq<string>, es: seq<string>, ks: seq<Key>)
    requires TrimStart(after) == s && s != [] && s[0] == '=' && TrimStart(s[1..]) == first
    requires Gather(first, ls) == (buf, rest) && Elements(buf) == Ok(es) && ParseKeys(es) == ks
    ensures ParseArray(after, ls) == Ok((ks, rest))
  {
    hide TrimStart, Gather, Elements, ParseKeys;
  }

  // ----- the version -----

  lemma AppendDigit(front: string, d: nat)
    requires AllDigits(front) && d < 10
    ensures AllDigits(front + [Digit(d)]) && DigitsValue(front + [Digit(d)]) == DigitsValue(front) * 10 + d
  {
    var s := front + [Digit(d)];
    assert s[..|s| - 1] == front && s[|s| - 1] == Digit(d);
  }

  lemma {:induction false} DecimalRead(n: nat)
    ensures Decimal(n) != [] && AllDigits(Decimal(n)) && DigitsValue(Decimal(n)) == n
  {
    if n >= 10 {
      DecimalRead(n / 10);
      AppendDigit(Decimal(n / 10), n % 10);
    } else {
      AppendDigit([], n);
    }
  }

  lemma DecimalSolid(n: nat)
    ensures Solid(Decimal(n)) && IsDigit(Decimal(n)[0]) && IsDigit(Decimal(n)[|Decimal(n)| - 1])
  {
    DecimalRead(n);
    hide Decimal, DigitsValue;
    var d := Decimal(n);
    assert d[0] in d && d[|d| - 1] in d;
  }

  lemma NumberRead(n: nat)
    requires n <= 0xFFFF_FFFF
    ensures ParseU32(Decimal(n)) == Some(n)
  {
    DecimalRead(n);
    DecimalSolid(n);
    hide Decimal, AllDigits, DigitsValue, Solid;
  }

  lemma AfterVersion(d: string)
    requires Solid(d)
    ensures TrimStart(" = " + d) == "= " + d && Trim(("= " + d)[1..]) == d
  {
    AfterName(d);
    TrimOne(d);
    hide *;
    EqualsText(d);
  }

  lemma VersionRead(n: nat)
    requires n <= 0xFFFF_FFFF
    ensures ParseVersion(" = " + Decimal(n)) == Ok(n)
  {
    DecimalSolid(n);
    NumberRead(n);
    AfterVersion(Decimal(n));
    hide Decimal, ParseU32, Trim, TrimStart, Solid, IsSpace;
  }

  lemma NoMarks(d: string)
    requires AllDigits(d)
    ensures '"' !in "version = " + d && '#' !in "version = " + d
  {
    forall c | c in "version = " + d
      ensures c != '"' && c != '#'
    {
      assert c in "version = " || c in d;
    }
  }

  lemma VersionText(d: string)
    requires Solid(d)
    ensures var l := "version = " + d; l != [] && l[0] == 'v' && l[|l| - 1] == d[|d| - 1]
    ensures var l := "version = " + d; "version" <= l && l[|"version"|..] == " = " + d
  {
  }

  lemma VersionLine(n: nat)
    ensures Cleaned("version = " + Decimal(n)) == "version = " + Decimal(n)
    ensures "version" <= "version = " + Decimal(n) && ("version = " + Decimal(n))[|"version"|..] == " = " + Decimal(n)
  {
    DecimalRead(n);
    DecimalSolid(n);
    NoMarks(Decimal(n));
    VersionText(Decimal(n));
    MarksAreSolid();
    hide Decimal, AllDigits, Cleaned, IsSpace, IsDigit;
    CleanedSolid("version = " + Decimal(n));
  }

  lemma HeaderText(name: string)
    requires name == CHECKED || name == TRUSTED
    ensures var l := name + " = [";
            '"' !in l && '#' !in l && l[0] == 'g' && l[|l| - 1] == '[' && l[|name|..] == " = [" && l != [] && name <= l
    ensures name == TRUSTED ==> !(CHECKED <= name + " = [")
  {
    assert CHECKED[14] != TRUSTED[14];
  }

  lemma NoVersion(l: string)
    requires l != [] && l[0] == 'g'
    ensures !("version" <= l)
  {
    assert "version"[0] == 'v';
  }

  lemma HeaderLine(name: string)
    requires name == CHECKED || name == TRUSTED
    ensures Cleaned(name + " = [") == name + " = [" && (name + " = [")[|name|..] == " = [" && name + " = [" != []
    ensures !("version" <= name + " = [") && name <= name + " = [" && (name == TRUSTED ==> !(CHECKED <= name + " = ["))
  {
    HeaderText(name);
    MarksAreSolid();
    hide *;
    var l := name + " = [";
    NoVersion(l);
    CleanedSolid(l);
  }

  // ----- the whole file -----

  lemma CleanedComment(l: string)
    requires l == [] || l[0] == '#'
    ensures Cleaned(l) == []
  {
  }

  lemma SkipStep(ls: seq<string>, version: Option<nat>, checked: seq<Key>, trusted: seq<Key>)
    requires ls != [] && Cleaned(ls[0]) == []
    ensures ParseLines(ls, version, checked, trusted) == ParseLines(ls[1..], version, checked, trusted)
  {
    hide Cleaned, ParseArray, ParseVersion;
  }

  lemma SkipLine(l: string, rest: seq<string>, version: Option<nat>, checked: seq<Key>, trusted: seq<Key>)
    requires l == [] || l[0] == '#'
    ensures ParseLines([l] + rest, version, checked, trusted) == ParseLines(rest, version, checked, trusted)
  {
    hide *;
    CleanedComment(l);
    ConsLine(l, rest);
    SkipStep([l] + rest, version, checked, trusted);
  }

  lemma ConsLine(l: string, rest: seq<string>)
    ensures ([l] + rest)[0] == l && ([l] + rest)[1..] == rest
  {
  }

  lemma VersionStep(n: nat, rest: seq<string>, version: Option<nat>, checked: seq<Key>, trusted: seq<Key>)
    requires n <= 0xFFFF_FFFF
    ensures ParseLines(["version = " + Decimal(n)] + rest, version, checked, trusted) == ParseLines(rest, Some(n), checked, trusted)
  {
    VersionLine(n);
    VersionRead(n);
    hide Cleaned, ParseVersion, Decimal;
    assert (["version = " + Decimal(n)] + rest)[1..] == rest;
  }

  lemma ListingLines(name: string, ks: seq<Key>, rest: seq<string>)
    ensures var tail := Entries(ks) + (["]"] + rest);
            var ls := Listing(name, ks) + rest;
            ls == [name + " = ["] + tail && ls[0] == name + " = [" && ls[1..] == tail
  {
  }

  lemma HeaderStep(name: string, ls: seq<string>, version: Option<nat>, checked: seq<Key>, trusted: seq<Key>)
    requires name == CHECKED || (name == TRUSTED && CHECKED != TRUSTED)
    requires ls != [] && Cleaned(ls[0]) != [] && !("version" <= Cleaned(ls[0])) && name <= Cleaned(ls[0])
    requires name == TRUSTED ==> !(CHECKED <= Cleaned(ls[0]))
    ensures var r := ParseArray(Cleaned(ls[0])[|name|..], ls[1..]);
            ParseLines(ls, version, checked, trusted) ==
              if r.Err? then Err(r.error)
              else if name == CHECKED then ParseLines(r.value.1, version, r.value.0, trusted)
              else ParseLines(r.value.1, version, checked, r.value.0)
  {
    hide Cleaned, ParseArray;
  }

  /** The header of a list hands over to the reader of arrays. */
  lemma ListingRead(name: string, ks: seq<Key>, rest: seq<string>, version: Option<nat>, checked: seq<Key>, trusted: seq<Key>)
    requires name == CHECKED || name == TRUSTED
    ensures var r := ParseArray(" = [", Entries(ks) + (["]"] + rest));
            ParseLines(Listing(name, ks) + rest, version, checked, trusted) ==
              if r.Err? then Err(r.error)
              else if name == CHECKED then ParseLines(r.value.1, version, r.value.0, trusted)
              else ParseLines(r.value.1, version, checked, r.value.0)
  {
    hide *;
    HeaderLine(name);
    ListingLines(name, ks, rest);
    NamesDiffer();
    HeaderStep(name, Listing(name, ks) + rest, version, checked, trusted);
  }

  lemma ListingStep(name: string, ks: seq<Key>, rest: seq<string>, version: Option<nat>, checked: seq<Key>, trusted: seq<Key>)
    requires (name == CHECKED || name == TRUSTED) && AllPrintable(ks)
    ensures ParseLines(Listing(name, ks) + rest, version, checked, trusted) ==
              if name == CHECKED then ParseLines(rest, version, ks, trusted) else ParseLines(rest, version, checked, ks)
  {
    hide *;
    ArrayRead(ks, rest);
    ListingRead(name, ks, rest, version, checked, trusted);
  }

  lemma NamesDiffer()
    ensures CHECKED != TRUSTED
  {
    assert CHECKED[14] != TRUSTED[14];
  }

  // ----- the comment lines -----

  predicate Remark(l: string) {
    Unbroken(l) && l != [] && l[0] == '#'
  }

  lemma RemarkGrows(a: string, b: string)
    requires Remark(a) && Unbroken(b) && b != []
    ensures Remark(a + b)
  {
  }

  lemma ManagedStart()
    ensures Remark("# Managed by `airl verify-policy`.")
  {
    RemarkGrows("# Managed by `airl", " verify-policy`.");
    assert "# Managed by `airl verify-policy`." == "# Managed by `airl" + " verify-policy`.";
  }

  lemma ManagedMiddle()
    ensures Remark("# Managed by `airl verify-policy`. Hand-edits are")
  {
    ManagedStart();
    RemarkGrows("# Managed by `airl verify-policy`.", " Hand-edits are");
    assert "# Managed by `airl verify-policy`. Hand-edits are" ==
             "# Managed by `airl verify-policy`." + " Hand-edits are";
  }

  lemma ManagedRemark()
    ensures Remark(MANAGED)
  {
    ManagedMiddle();
    RemarkGrows("# Managed by `airl verify-policy`. Hand-edits are", " allowed; CI validates");
    assert MANAGED == "# Managed by `airl verify-policy`. Hand-edits are" + " allowed; CI validates";
  }

  lemma RatchetStart()
    ensures Remark("# consistency on every run.")
  {
    RemarkGrows("# consistency on", " every run.");
    assert "# consistency on every run." == "# consistency on" + " every run.";
  }

  lemma RatchetMiddle()
    ensures Remark("# consistency on every run. Remove an entry to")
  {
    RatchetStart();
    RemarkGrows("# consistency on every run.", " Remove an entry to");
    assert "# consistency on every run. Remove an entry to" == "# consistency on every run." + " Remove an entry to";
  }

  lemma RatchetEnd()
    ensures Remark("# consistency on every run. Remove an entry to ratchet")
  {
    RatchetMiddle();
    RemarkGrows("# consistency on every run. Remove an entry to", " ratchet");
    assert "# consistency on every run. Remove an entry to ratchet" ==
             "# consistency on every run. Remove an entry to" + " ratchet";
  }

  lemma RatchetRemark()
    ensures Remark(RATCHET)
  {
    RatchetEnd();
    RemarkGrows("# consistency on every run. Remove an entry to ratchet", " — requires upgrading");
    assert RATCHET == "# consistency on every run. Remove an entry to ratchet" + " — requires upgrading";
  }

  lemma ProvenStart()
    ensures Remark("# the module's :verify")
  {
    RemarkGrows("# the module's", " :verify");
    assert "# the module's :verify" == "# the module's" + " :verify";
  }

  lemma ProvenMiddle()
    ensures Remark("# the module's :verify to proven and adding")
  {
    ProvenStart();
    RemarkGrows("# the module's :verify", " to proven and adding");
    assert "# the module's :verify to proven and adding" == "# the module's :verify" + " to proven and adding";
  }

  lemma ProvenEnd()
    ensures Remark("# the module's :verify to proven and adding :ensures to every")
  {
    ProvenMiddle();
    RemarkGrows("# the module's :verify to proven and adding", " :ensures to every");
    assert "# the module's :verify to proven and adding :ensures to every" ==
             "# the module's :verify to proven and adding" + " :ensures to every";
  }

  lemma ProvenRemark()
    ensures Remark(PROVEN)
  {
    ProvenEnd();
    RemarkGrows("# the module's :verify to proven and adding :ensures to every", " :pub defn.");
    assert PROVEN == "# the module's :verify to proven and adding :ensures to every" + " :pub defn.";
  }

  lemma CommentLines()
    ensures Unbroken(MANAGED) && Unbroken(RATCHET) && Unbroken(PROVEN)
    ensures MANAGED != [] && RATCHET != [] && PROVEN != [] && MANAGED[0] == '#' && RATCHET[0] == '#' && PROVEN[0] == '#'
  {
    ManagedRemark();
    RatchetRemark();
    ProvenRemark();
  }

  /** The lines before the lists, one step of the reader each. */
  lemma IntroRead(version: nat, ls: seq<string>)
    requires version <= 0xFFFF_FFFF
    ensures ParseLines([MANAGED] + ([RATCHET] + ([PROVEN] + (["version = " + Decimal(version)] + ([""] + ls)))), None, [], []) ==
              ParseLines(ls, Some(version), [], [])
  {
    hide *;
    var r0 := ["version = " + Decimal(version)] + ([""] + ls);
    CommentLines();
    SkipLine(MANAGED, [RATCHET] + ([PROVEN] + r0), None, [], []);
    SkipLine(RATCHET, [PROVEN] + r0, None, [], []);
    SkipLine(PROVEN, r0, None, [], []);
    VersionStep(version, [""] + ls, None, [], []);
    SkipLine("", ls, Some(version), [], []);
  }

  /** The lines of both lists. */
  function ListLines(c: seq<Key>, t: seq<Key>): seq<string> {
    Listing(CHECKED, c) + ([""] + (Listing(TRUSTED, t) + []))
  }

  lemma ListsRead(version: nat, c: seq<Key>, t: seq<Key>)
    requires AllPrintable(c) && AllPrintable(t)
    ensures ParseLines(ListLines(c, t), Some(version), [], []) == Ok(Policy(version, c, t))
  {
    hide Listing, ParseLines, AllPrintable;
    var r3 := Listing(TRUSTED, t) + [];
    ListingStep(CHECKED, c, [""] + r3, Some(version), [], []);
    SkipLine("", r3, Some(version), c, []);
    ListingStep(TRUSTED, t, [], Some(version), c, []);
    EndOfLines(version, c, t);
    NamesDiffer();
  }

  lemma EndOfLines(version: nat, c: seq<Key>, t: seq<Key>)
    ensures ParseLines([], Some(version), c, t) == Ok(Policy(version, c, t))
  {
  }

  lemma RenderedAs(b: Policy)
    ensures RenderLines(b) ==
              [MANAGED] + ([RATCHET] + ([PROVEN] + (["version = " + Decimal(b.version)] + ([""] +
                ListLines(Sorted(b.checked), Sorted(b.trusted))))))
  {
    hide Listing, Sorted, Decimal;
  }

  predicate OneLine(ks: seq<Key>) {
    forall i :: 0 <= i < |ks| ==> '\n' !in ToText(ks[i])
  }

  lemma EntryUnbroken(k: Key)
    requires '\n' !in ToText(k)
    ensures Unbroken(Entry(k))
  {
    var e := Entry(k);
    assert forall c :: c in e ==> c == ' ' || c == '"' || c == ',' || c in ToText(k);
  }

  lemma {:induction false} EntriesUnbroken(ks: seq<Key>)
    requires OneLine(ks)
    ensures forall l :: l in Entries(ks) ==> Unbroken(l)
  {
    if ks != [] {
      assert forall i :: 0 <= i < |ks[1..]| ==> ks[1..][i] == ks[i + 1];
      EntryUnbroken(ks[0]);
      EntriesUnbroken(ks[1..]);
    }
  }

  lemma VersionUnbroken(n: nat)
    ensures Unbroken("version = " + Decimal(n))
  {
    var d := Decimal(n);
    DecimalRead(n);
    assert d[|d| - 1] in d;
    hide Decimal;
    forall c | c in "version = " + d
      ensures c != '\n'
    {
      assert c in "version = " || c in d;
    }
  }

  lemma Members(c: seq<Key>, t: seq<Key>, version: nat)
    requires (forall l :: l in Entries(c) ==> Unbroken(l)) && (forall l :: l in Entries(t) ==> Unbroken(l))
    requires Unbroken(MANAGED) && Unbroken(RATCHET) && Unbroken(PROVEN) && Unbroken("version = " + Decimal(version))
    requires Unbroken(CHECKED + " = [") && Unbroken(TRUSTED + " = [") && Unbroken("") && Unbroken("]")
    ensures var ls := [MANAGED, RATCHET, PROVEN, "version = " + Decimal(version), ""] + Listing(CHECKED, c) + [""] +
                      Listing(TRUSTED, t);
            forall l :: l in ls ==> Unbroken(l)
  {
    hide Unbroken, Entries, Decimal;
  }

  lemma RenderedUnbroken(b: Policy)
    requires OneLine(Sorted(b.checked)) && OneLine(Sorted(b.trusted))
    ensures forall l :: l in RenderLines(b) ==> Unbroken(l)
  {
    var c, t := Sorted(b.checked), Sorted(b.trusted);
    EntriesUnbroken(c);
    EntriesUnbroken(t);
    VersionUnbroken(b.version);
    CommentLines();
    HeadersUnbroken();
    hide Unbroken, Entries, Decimal, Sorted, OneLine, Listing;
    Members(c, t, b.version);
  }

  lemma HeadersUnbroken()
    ensures Unbroken("") && Unbroken("]") && Unbroken(CHECKED + " = [") && Unbroken(TRUSTED + " = [")
  {
  }

  lemma SortedPrintable(ks: seq<Key>)
    requires AllPrintable(ks)
    ensures AllPrintable(Sorted(ks))
  {
    SortedFacts(ks);
    hide Printable, Sorted;
    forall i | 0 <= i < |Sorted(ks)|
      ensures Printable(Sorted(ks)[i])
    {
      assert Sorted(ks)[i] in ks;
    }
  }

  /** The text of a printed baseline comes apart into the lines of its lists. */
  lemma RenderedRead(b: Policy)
    requires b.version <= 0xFFFF_FFFF && OneLine(Sorted(b.checked)) && OneLine(Sorted(b.trusted))
    ensures Parse(Render(b)) == ParseLines(ListLines(Sorted(b.checked), Sorted(b.trusted)), Some(b.version), [], [])
  {
    RenderedUnbroken(b);
    LinesOfUnlines(RenderLines(b));
    RenderedAs(b);
    IntroRead(b.version, ListLines(Sorted(b.checked), Sorted(b.trusted)));
    hide ParseLines, Sorted, Unlines, Lines, OneLine, ListLines, RenderLines;
  }

  /** A printed baseline is read back as itself, its lists sorted and without duplicates; and printing
      what was read gives the same text again. */
  lemma RoundTrip(b: Policy)
    requires b.version <= 0xFFFF_FFFF && AllPrintable(b.checked) && AllPrintable(b.trusted)
    ensures Parse(Render(b)) == Ok(Policy(b.version, Sorted(b.checked), Sorted(b.trusted)))
    ensures Render(Parse(Render(b)).value) == Render(b)
  {
    SortedPrintable(b.checked);
    SortedPrintable(b.trusted);
    hide HashesKept, Sorted;
    RenderedRead(b);
    ListsRead(b.version, Sorted(b.checked), Sorted(b.trusted));
    SortedTwice(b.checked);
    SortedTwice(b.trusted);
    hide ParseLines, Sorted, Unlines, Lines, AllPrintable, ListLines, Parse;
  }
}
