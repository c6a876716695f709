/** What several modules need to know about strings. */
module Strings {
  function IndexOf(s: string, c: char): (i: nat)
    ensures i <= |s| && (i < |s| ==> s[i] == c) && c !in s[..i]
  {
    if s == [] || s[0] == c then 0
    else
      var i := 1 + IndexOf(s[1..], c);
      assert s[..i] == [s[0]] + s[1..][..i - 1];
      i
  }

  /** The order of strings, by their first difference. */
  predicate LexLess(s: string, t: string) {
    t != [] && (s == [] || s[0] < t[0] || (s[0] == t[0] && LexLess(s[1..], t[1..])))
  }

  /** `s` is `t` cut short, or smaller where the two first differ. */
  ghost predicate Precedes(s: string, t: string) {
    exists k: nat :: k <= |s| && k < |t| && s[..k] == t[..k] && (k == |s| || s[k] < t[k])
  }

  lemma {:induction false} LexLessIsPrecedes(s: string, t: string)
    ensures LexLess(s, t) <==> Precedes(s, t)
  {
    PrecedesFirst(s, t);
    if s != [] && t != [] && s[0] == t[0] {
      LexLessIsPrecedes(s[1..], t[1..]);
      PrecedesRest(s, t);
      hide Precedes;
    }
  }

  lemma PrecedesFirst(s: string, t: string)
    ensures Precedes(s, t) ==> t != [] && (s == [] || s[0] <= t[0])
    ensures t != [] && (s == [] || s[0] < t[0]) ==> Precedes(s, t)
  {
    if k: nat :| k <= |s| && k < |t| && s[..k] == t[..k] && (k == |s| || s[k] < t[k]) {
      SameStart(s, t, k);
    }
    if t != [] && (s == [] || s[0] < t[0]) {
      assert s[..0] == t[..0];
    }
  }

  lemma SameStart(s: string, t: string, k: nat)
    requires k <= |s| && k <= |t| && s[..k] == t[..k]
    ensures k > 0 ==> s[0] == t[0] && s[1..][..k - 1] == t[1..][..k - 1]
  {
    if k > 0 {
      assert s[..k][0] == s[0] && t[..k][0] == t[0];
      assert s[1..][..k - 1] == s[..k][1..] && t[1..][..k - 1] == t[..k][1..];
    }
  }

  lemma PrecedesRest(s: string, t: string)
    requires s != [] && t != [] && s[0] == t[0]
    ensures Precedes(s, t) <==> Precedes(s[1..], t[1..])
  {
    if k: nat :| k <= |s| && k < |t| && s[..k] == t[..k] && (k == |s| || s[k] < t[k]) {
      SameStart(s, t, k);
    }
    var u, v := s[1..], t[1..];
    if k: nat :| k <= |u| && k < |v| && u[..k] == v[..k] && (k == |u| || u[k] < v[k]) {
      assert s[..k + 1] == [s[0]] + u[..k] && t[..k + 1] == [t[0]] + v[..k];
    }
  }

  lemma {:induction false} LexOrder(s: string, t: string, u: string)
    ensures !LexLess(s, s)
    ensures LexLess(s, t) && LexLess(t, u) ==> LexLess(s, u)
    ensures LexLess(s, t) || s == t || LexLess(t, s)
    decreases |s|
  {
    if s != [] {
      if t != [] {
        if u != [] {
          LexOrder(s[1..], t[1..], u[1..]);
        } else {
          LexOrder(s[1..], t[1..], t[1..]);
        }
        assert s[0] == t[0] && s[1..] == t[1..] ==> s == [s[0]] + s[1..] == [t[0]] + t[1..] == t;
      } else {
        LexOrder(s[1..], s[1..], s[1..]);
      }
    }
  }

  lemma PrecedesOrder(s: string, t: string, u: string)
    ensures !Precedes(s, s)
    ensures Precedes(s, t) && Precedes(t, u) ==> Precedes(s, u)
    ensures Precedes(s, t) || s == t || Precedes(t, s)
  {
    LexOrder(s, t, u);
    LexLessIsPrecedes(s, s);
    LexLessIsPrecedes(s, t);
    LexLessIsPrecedes(t, s);
    LexLessIsPrecedes(t, u);
    LexLessIsPrecedes(s, u);
    hide Precedes, LexLess;
  }

  /** The number of bytes of a character in UTF-8. */
  function CharBytes(c: char): nat {
    if c < '\U{80}' then 1 else if c < '\U{800}' then 2 else if c < '\U{10000}' then 3 else 4
  }

  function ByteLength(s: string): (n: nat)
    ensures |s| <= n <= 4 * |s|
  {
    if s == [] then 0 else CharBytes(s[0]) + ByteLength(s[1..])
  }

  /** The bytes of a character, as section 3 of RFC 3629 lays them out. */
  function Utf8(c: char): seq<nat> {
    var n := c as int;
    if n < 0x80 then [n]
    else if n < 0x800 then [0xC0 + n / 0x40, 0x80 + n % 0x40]
    else if n < 0x10000 then [0xE0 + n / 0x1000, 0x80 + n / 0x40 % 0x40, 0x80 + n % 0x40]
    else [0xF0 + n / 0x40000, 0x80 + n / 0x1000 % 0x40, 0x80 + n / 0x40 % 0x40, 0x80 + n % 0x40]
  }

  function Encoded(s: string): seq<nat> {
    if s == [] then [] else Utf8(s[0]) + Encoded(s[1..])
  }

  lemma {:induction false} EncodedLength(s: string)
    ensures ByteLength(s) == |Encoded(s)|
  {
    if s != [] {
      EncodedLength(s[1..]);
    }
  }

  /** The first byte tells how many follow, and together they tell the character. */
  lemma Utf8Decodes(c: char)
    ensures var bs := Utf8(c);
            && (bs[0] < 0x80 ==> |bs| == 1 && c as int == bs[0])
            && (0xC0 <= bs[0] < 0xE0 ==> |bs| == 2 && c as int == (bs[0] - 0xC0) * 0x40 + (bs[1] - 0x80))
            && (0xE0 <= bs[0] < 0xF0 ==>
                  |bs| == 3 && c as int == (bs[0] - 0xE0) * 0x1000 + (bs[1] - 0x80) * 0x40 + (bs[2] - 0x80))
            && (0xF0 <= bs[0] < 0xF8 ==>
                  |bs| == 4 && c as int == (bs[0] - 0xF0) * 0x40000 + (bs[1] - 0x80) * 0x1000 + (bs[2] - 0x80) * 0x40 + (bs[3] - 0x80))
            && (bs[0] < 0x80 || 0xC0 <= bs[0] < 0xF8) && forall i :: 0 < i < |bs| ==> 0x80 <= bs[i] < 0xC0
  {
    Digits(c as int);
  }

  lemma Digits(n: nat)
    ensures n == n / 0x40 * 0x40 + n % 0x40
    ensures n / 0x40 == n / 0x1000 * 0x40 + n / 0x40 % 0x40
    ensures n / 0x1000 == n / 0x40000 * 0x40 + n / 0x1000 % 0x40
  {
  }

  /** Strings of at most this many bytes are interned. */
  const MAX_INTERN_LEN := 64
}
