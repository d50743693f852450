/** The Python `str` operations the tracker relies on (`lower`, `upper`, `split`, `strip`,
    `replace`, `isdigit`, `in`, `join`, `int()` and the `{:,}` format), narrowed to ASCII. */
module Text {

  // ---------------------------------------------------------------- characters

  /** `str.isspace` on ASCII: tab, line feed, vertical tab, form feed, carriage return,
      the four information separators 0x1c-0x1f, and the space. */
  predicate IsSpace(c: char) {
    c == ' ' || (9 <= c as int <= 13) || (28 <= c as int <= 31)
  }

  /** Membership in the regular-expression class `\w` on ASCII. */
  predicate IsWordChar(c: char) {
    ('a' <= c <= 'z') || ('A' <= c <= 'Z') || ('0' <= c <= '9') || c == '_'
  }

  predicate IsDigit(c: char) {
    '0' <= c <= '9'
  }

  predicate IsUpperChar(c: char) {
    'A' <= c <= 'Z'
  }

  function LowerChar(c: char): (r: char)
    ensures !IsUpperChar(r)
    ensures IsWordChar(r) == IsWordChar(c) && IsSpace(r) == IsSpace(c) && IsDigit(r) == IsDigit(c)
  {
    if IsUpperChar(c) then (c as int + 32) as char else c
  }

  function UpperChar(c: char): (r: char)
    ensures !('a' <= r <= 'z')
  {
    if 'a' <= c <= 'z' then (c as int - 32) as char else c
  }

  // ---------------------------------------------------------------- case mapping

  /** `str.lower` */
  function Lower(s: string): (r: string)
    ensures |r| == |s|
    ensures forall i :: 0 <= i < |s| ==> r[i] == LowerChar(s[i])
  {
    seq(|s|, i requires 0 <= i < |s| => LowerChar(s[i]))
  }

  /** `str.upper` */
  function Upper(s: string): (r: string)
    ensures |r| == |s|
    ensures forall i :: 0 <= i < |s| ==> r[i] == UpperChar(s[i])
  {
    seq(|s|, i requires 0 <= i < |s| => UpperChar(s[i]))
  }

  lemma LowerConcat(a: string, b: string)
    ensures Lower(a + b) == Lower(a) + Lower(b)
  {
    assert forall i :: 0 <= i < |a + b| ==> Lower(a + b)[i] == (Lower(a) + Lower(b))[i];
  }

  lemma LowerIdempotent(s: string)
    requires forall i :: 0 <= i < |s| ==> !IsUpperChar(s[i])
    ensures Lower(s) == s
  {
  }

  // ---------------------------------------------------------------- digits

  /** `str.isdigit` on ASCII: non-empty and made of decimal digits only. */
  predicate IsDigits(s: string) {
    |s| > 0 && forall i :: 0 <= i < |s| ==> IsDigit(s[i])
  }

  predicate AllDigits(s: string) {
    forall i :: 0 <= i < |s| ==> IsDigit(s[i])
  }

  /** `any(ch.isdigit() for ch in s)` */
  predicate HasDigit(s: string) {
    exists i :: 0 <= i < |s| && IsDigit(s[i])
  }

  // ---------------------------------------------------------------- substrings

  /** Python's `needle in hay` on strings; the empty needle is in every string. */
  predicate Contains(hay: string, needle: string) {
    exists i :: 0 <= i <= |hay| && needle <= hay[i..]
  }

  lemma ContainsEmpty(hay: string)
    ensures Contains(hay, "")
  {
    assert "" <= hay[0..];
  }

  lemma ContainsSelf(s: string)
    ensures Contains(s, s)
  {
    assert s <= s[0..];
  }

  /** `str.replace(c, "")` */
  function RemoveChar(s: string, c: char): (r: string)
    ensures |r| <= |s|
  {
    if s == [] then [] else (if s[0] == c then [] else [s[0]]) + RemoveChar(s[1..], c)
  }

  /** `s.replace(c, "")` keeps exactly the characters of `s` other than `c`. */
  lemma {:induction false} RemoveCharMembers(s: string, c: char)
    ensures forall x :: x in RemoveChar(s, c) <==> x in s && x != c
  {
    if s != [] {
      RemoveCharMembers(s[1..], c);
      assert s == [s[0]] + s[1..];
    }
  }

  lemma {:induction false} RemoveCharConcat(a: string, b: string, c: char)
    ensures RemoveChar(a + b, c) == RemoveChar(a, c) + RemoveChar(b, c)
  {
    if a == [] {
      assert a + b == b;
    } else {
      assert (a + b)[0] == a[0];
      assert (a + b)[1..] == a[1..] + b;
      RemoveCharConcat(a[1..], b, c);
    }
  }

  lemma {:induction false} RemoveCharAbsent(s: string, c: char)
    requires c !in s
    ensures RemoveChar(s, c) == s
  {
    if s != [] {
      RemoveCharAbsent(s[1..], c);
    }
  }

  /** `str.replace(a, b)` for single characters. */
  function ReplaceChar(s: string, a: char, b: char): (r: string)
    ensures |r| == |s|
    ensures forall i :: 0 <= i < |s| ==> r[i] == (if s[i] == a then b else s[i])
  {
    seq(|s|, i requires 0 <= i < |s| => if s[i] == a then b else s[i])
  }

  // ---------------------------------------------------------------- splitting on whitespace

  /** A word of `str.split()`: non-empty and free of whitespace. */
  predicate IsToken(t: string) {
    |t| > 0 && forall i :: 0 <= i < |t| ==> !IsSpace(t[i])
  }

  /** Length of the leading run of non-whitespace characters. */
  function WordLen(s: string): (n: nat)
    ensures n <= |s|
    ensures forall i :: 0 <= i < n ==> !IsSpace(s[i])
    ensures n < |s| ==> IsSpace(s[n])
  {
    if s == [] || IsSpace(s[0]) then 0 else 1 + WordLen(s[1..])
  }

  /** `str.split()` with no arguments: the maximal runs of non-whitespace characters. */
  function Split(s: string): (r: seq<string>)
    ensures forall t :: t in r ==> IsToken(t)
    decreases |s|
  {
    if s == [] then []
    else if IsSpace(s[0]) then Split(s[1..])
    else
      var n := WordLen(s);
      [s[..n]] + Split(s[n..])
  }

  /** Every character of a word of `Split(s)` is a character of `s`. */
  lemma {:induction false} SplitChars(s: string)
    ensures forall t, c :: t in Split(s) && c in t ==> c in s
    decreases |s|
  {
    if s == [] {
    } else if IsSpace(s[0]) {
      SplitChars(s[1..]);
    } else {
      var n := WordLen(s);
      SplitChars(s[n..]);
      forall t, c | t in Split(s) && c in t ensures c in s {
        if t == s[..n] {
        } else {
          assert t in Split(s[n..]);
        }
      }
    }
  }

  /** `sep.join(ts)` */
  function Join(ts: seq<string>, sep: string): string {
    if ts == [] then "" else if |ts| == 1 then ts[0] else ts[0] + sep + Join(ts[1..], sep)
  }

  /** `"".join(ts)` */
  function Concat(ts: seq<string>): string {
    if ts == [] then "" else ts[0] + Concat(ts[1..])
  }

  lemma {:induction false} SplitSpacePrefix(s: string)
    ensures Split(" " + s) == Split(s)
  {
    assert (" " + s)[1..] == s;
  }

  lemma {:induction false} WordLenOfTokenThenSpace(t: string, rest: string)
    requires IsToken(t)
    ensures WordLen(t + " " + rest) == |t|
    decreases |t|
  {
    if |t| > 1 {
      assert (t + " " + rest)[1..] == t[1..] + " " + rest;
      WordLenOfTokenThenSpace(t[1..], rest);
    } else {
      assert (t + " " + rest)[1..] == " " + rest;
    }
  }

  lemma {:induction false} WordLenOfToken(t: string)
    requires IsToken(t)
    ensures WordLen(t) == |t|
    decreases |t|
  {
    if |t| > 1 {
      WordLenOfToken(t[1..]);
    }
  }

  /** Joining words with single spaces and splitting again gives the words back. */
  lemma {:induction false} SplitJoin(ts: seq<string>)
    requires forall t :: t in ts ==> IsToken(t)
    ensures Split(Join(ts, " ")) == ts
  {
    if ts == [] {
    } else if |ts| == 1 {
      var t := ts[0];
      WordLenOfToken(t);
      assert t[..|t|] == t;
      assert t[|t|..] == [];
    } else {
      var t, rest := ts[0], Join(ts[1..], " ");
      var s := t + " " + rest;
      WordLenOfTokenThenSpace(t, rest);
      assert s[..|t|] == t;
      assert s[|t|..] == " " + rest;
      SplitSpacePrefix(rest);
      SplitJoin(ts[1..]);
      assert ts == [t] + ts[1..];
    }
  }

  // ---------------------------------------------------------------- splitting on a separator

  /** `s.split(c)` for a one-character separator: the pieces between the occurrences of `c`,
      empty ones included. */
  function SplitOn(s: string, c: char): (r: seq<string>)
    ensures |r| >= 1
  {
    if s == [] then [""]
    else
      var rest := SplitOn(s[1..], c);
      if s[0] == c then [""] + rest else [[s[0]] + rest[0]] + rest[1..]
  }

  /** No piece contains the separator. */
  lemma {:induction false} SplitOnPieces(s: string, c: char)
    ensures forall i :: 0 <= i < |SplitOn(s, c)| ==> c !in SplitOn(s, c)[i]
  {
    if s != [] {
      SplitOnPieces(s[1..], c);
      var rest := SplitOn(s[1..], c);
      if s[0] != c {
        assert c !in rest[0];
        var r := SplitOn(s, c);
        forall i | 0 <= i < |r| ensures c !in r[i] {
          if i > 0 {
            assert r[i] == rest[i];
          }
        }
      }
    }
  }

  lemma JoinFront(t: string, ts: seq<string>, sep: string)
    requires ts != []
    ensures Join([t] + ts, sep) == t + sep + Join(ts, sep)
  {
    assert ([t] + ts)[1..] == ts;
  }

  /** Joining the pieces with the separator gives the string back. */
  lemma {:induction false} SplitOnJoin(s: string, c: char)
    ensures Join(SplitOn(s, c), [c]) == s
  {
    if s != [] {
      var rest := SplitOn(s[1..], c);
      SplitOnJoin(s[1..], c);
      if s[0] == c {
        JoinFront("", rest, [c]);
        assert s == [c] + s[1..];
      } else if |rest| == 1 {
        assert s == [s[0]] + s[1..];
      } else {
        JoinFront(rest[0], rest[1..], [c]);
        assert rest == [rest[0]] + rest[1..];
        JoinFront([s[0]] + rest[0], rest[1..], [c]);
        assert s == [s[0]] + s[1..];
      }
    }
  }

  /** Splitting pieces that do not contain the separator, once joined with it, gives them back. */
  lemma {:induction false} JoinSplitOn(ps: seq<string>, c: char)
    requires |ps| >= 1 && forall i :: 0 <= i < |ps| ==> c !in ps[i]
    ensures SplitOn(Join(ps, [c]), c) == ps
    decreases |Join(ps, [c])|, |ps|
  {
    var p := ps[0];
    if p == "" {
      if |ps| > 1 {
        JoinFront("", ps[1..], [c]);
        var j := Join(ps[1..], [c]);
        assert Join(ps, [c]) == [c] + j;
        assert ([c] + j)[1..] == j;
        JoinSplitOn(ps[1..], c);
        assert ps == [""] + ps[1..];
      }
    } else {
      var qs := [p[1..]] + ps[1..];
      forall i | 0 <= i < |qs| ensures c !in qs[i] {
        if i == 0 {
          assert forall x :: x in p[1..] ==> x in p;
        } else {
          assert qs[i] == ps[i];
        }
      }
      var j := Join(qs, [c]);
      if |ps| == 1 {
        assert Join(ps, [c]) == p && j == p[1..];
      } else {
        JoinFront(p, ps[1..], [c]);
        JoinFront(p[1..], ps[1..], [c]);
        assert p == [p[0]] + p[1..];
        assert Join(ps, [c]) == [p[0]] + j;
      }
      assert Join(ps, [c]) == [p[0]] + j;
      assert ([p[0]] + j)[1..] == j;
      JoinSplitOn(qs, c);
      assert p[0] != c by {
        assert p[0] in p;
      }
      assert ps == [[p[0]] + qs[0]] + qs[1..];
    }
  }

  lemma {:induction false} JoinSnoc(ts: seq<string>, t: string, sep: string)
    requires ts != []
    ensures Join(ts + [t], sep) == Join(ts, sep) + sep + t
  {
    if |ts| == 1 {
      assert (ts + [t])[1..] == [t];
    } else {
      assert (ts + [t])[1..] == ts[1..] + [t];
      JoinSnoc(ts[1..], t, sep);
    }
  }

  /** `s.split(c)[-1]` is what follows the last `c`, or all of `s` when there is none. */
  lemma LastPiece(s: string, c: char)
    ensures var ps := SplitOn(s, c);
            && c !in ps[|ps| - 1]
            && (|ps| == 1 ==> s == ps[0])
            && (|ps| >= 2 ==> s == Join(ps[..|ps| - 1], [c]) + [c] + ps[|ps| - 1])
  {
    var ps := SplitOn(s, c);
    SplitOnPieces(s, c);
    SplitOnJoin(s, c);
    if |ps| >= 2 {
      assert ps == ps[..|ps| - 1] + [ps[|ps| - 1]];
      JoinSnoc(ps[..|ps| - 1], ps[|ps| - 1], [c]);
    }
  }

  /** `s.split(c)[0]` is what precedes the first `c`, or all of `s` when there is none. */
  lemma FirstPiece(s: string, c: char)
    ensures var ps := SplitOn(s, c);
            && c !in ps[0]
            && (|ps| == 1 ==> s == ps[0])
            && (|ps| >= 2 ==> s == ps[0] + [c] + Join(ps[1..], [c]))
  {
    var ps := SplitOn(s, c);
    SplitOnPieces(s, c);
    SplitOnJoin(s, c);
    if |ps| >= 2 {
      JoinFront(ps[0], ps[1..], [c]);
      assert ps == [ps[0]] + ps[1..];
    }
  }

  // ---------------------------------------------------------------- stripping

  function LStrip(s: string): (r: string)
    ensures r == [] || !IsSpace(r[0])
    ensures |r| <= |s|
    ensures forall i :: 0 <= i < |s| - |r| ==> IsSpace(s[i])
  {
    if s != [] && IsSpace(s[0]) then LStrip(s[1..]) else s
  }

  function RStrip(s: string): (r: string)
    ensures r == [] || !IsSpace(r[|r| - 1])
    ensures |r| <= |s|
    ensures forall i :: |r| <= i < |s| ==> IsSpace(s[i])
  {
    if s != [] && IsSpace(s[|s| - 1]) then RStrip(s[..|s| - 1]) else s
  }

  /** `lstrip` keeps a suffix of its input. */
  lemma {:induction false} LStripSuffix(s: string)
    ensures LStrip(s) == s[|s| - |LStrip(s)|..]
  {
    if s != [] && IsSpace(s[0]) {
      LStripSuffix(s[1..]);
    }
  }

  /** `rstrip` keeps a prefix of its input. */
  lemma {:induction false} RStripPrefix(s: string)
    ensures RStrip(s) == s[..|RStrip(s)|]
  {
    if s != [] && IsSpace(s[|s| - 1]) {
      RStripPrefix(s[..|s| - 1]);
    }
  }

  /** `str.strip()` with no arguments. */
  function Strip(s: string): (r: string)
    ensures r == [] || (!IsSpace(r[0]) && !IsSpace(r[|r| - 1]))
    ensures |r| <= |s|
  {
    var l := LStrip(s);
    RStripPrefix(l);
    RStrip(l)
  }

  /** Stripping a string that neither starts nor ends with whitespace changes nothing. */
  lemma StripUnpadded(s: string)
    requires s == [] || (!IsSpace(s[0]) && !IsSpace(s[|s| - 1]))
    ensures Strip(s) == s
  {
    assert LStrip(s) == s;
  }

  /** Stripping only removes whitespace: every other character of `s` is still there. */
  lemma StripMembers(s: string)
    ensures forall c :: c in s ==> IsSpace(c) || c in Strip(s)
  {
    var l := LStrip(s);
    var r := RStrip(l);
    LStripSuffix(s);
    RStripPrefix(l);
    forall c | c in s && !IsSpace(c) ensures c in r {
      var i :| 0 <= i < |s| && s[i] == c;
      var j := i - (|s| - |l|);
      assert l[j] == s[i];
      assert r[j] == l[j];
    }
  }

  /** Stripping adds no character. */
  lemma StripFrom(s: string)
    ensures forall c :: c in Strip(s) ==> c in s
  {
    var l := LStrip(s);
    var r := RStrip(l);
    LStripSuffix(s);
    RStripPrefix(l);
    forall c | c in r ensures c in s {
      var k :| 0 <= k < |r| && r[k] == c;
      assert r[k] == l[k];
      assert l[k] == s[|s| - |l| + k];
    }
  }

  lemma StripEmptyIffBlank(s: string)
    ensures Strip(s) == [] <==> forall i :: 0 <= i < |s| ==> IsSpace(s[i])
  {
    var l := LStrip(s);
    LStripSuffix(s);
    if Strip(s) == [] {
      assert l == [];
    } else {
      assert RStrip(l) != [];
      assert l[0] == s[|s| - |l|];
    }
  }

  /** `str.split(maxsplit=1)`: the first word, then (when anything non-blank follows) the rest,
      which starts at the next non-whitespace character and keeps its trailing whitespace. */
  function SplitMax1(s: string): (r: seq<string>)
    ensures |r| <= 2
    ensures |r| >= 1 ==> IsToken(r[0])
    ensures |r| == 2 ==> r[1] != [] && !IsSpace(r[1][0])
  {
    var t := LStrip(s);
    if t == [] then []
    else
      var n := WordLen(t);
      FirstWordIsToken(t);
      var rest := LStrip(t[n..]);
      if rest == [] then [t[..n]] else [t[..n], rest]
  }

  lemma FirstWordIsToken(t: string)
    requires t != [] && !IsSpace(t[0])
    ensures IsToken(t[..WordLen(t)])
  {
    var n := WordLen(t);
    assert n > 0;
    forall i | 0 <= i < n ensures !IsSpace(t[..n][i]) {
      assert t[..n][i] == t[i];
    }
  }

  /** `str.split(maxsplit=1)` has two parts exactly when `str.split()` has at least two words. */
  lemma {:induction false} SplitMax1Count(s: string)
    ensures |SplitMax1(s)| == (if |Split(s)| >= 2 then 2 else |Split(s)|)
    ensures |SplitMax1(s)| >= 1 ==> SplitMax1(s)[0] == Split(s)[0]
    decreases |s|
  {
    if s == [] {
    } else if IsSpace(s[0]) {
      assert LStrip(s) == LStrip(s[1..]);
      assert SplitMax1(s) == SplitMax1(s[1..]);
      assert Split(s) == Split(s[1..]);
      SplitMax1Count(s[1..]);
    } else {
      var n := WordLen(s);
      assert LStrip(s) == s;
      SplitVsLStrip(s[n..]);
      assert Split(s) == [s[..n]] + Split(s[n..]);
    }
  }

  /** Leading whitespace does not change the words, and blank text has none. */
  lemma {:induction false} SplitVsLStrip(s: string)
    ensures Split(s) == Split(LStrip(s))
    ensures LStrip(s) == [] <==> Split(s) == []
    decreases |s|
  {
    if s != [] && IsSpace(s[0]) {
      SplitVsLStrip(s[1..]);
    }
  }

  // ---------------------------------------------------------------- numbers

  function DigitChar(d: nat): (c: char)
    requires d < 10
    ensures IsDigit(c)
  {
    ('0' as int + d) as char
  }

  function DigitValue(c: char): (d: nat)
    requires IsDigit(c)
    ensures d < 10
  {
    c as int - '0' as int
  }

  /** Python `str(n)` for a natural number. */
  function Decimal(n: nat): (r: string)
    ensures IsDigits(r)
  {
    if n < 10 then [DigitChar(n)] else Decimal(n / 10) + [DigitChar(n % 10)]
  }

  /** Python `int(s)` for a string of ASCII digits. */
  function ParseDigits(s: string): nat
    requires AllDigits(s)
  {
    if s == [] then 0 else ParseDigits(s[..|s| - 1]) * 10 + DigitValue(s[|s| - 1])
  }

  function Pow10(k: nat): (r: nat)
    ensures r >= 1
  {
    if k == 0 then 1 else 10 * Pow10(k - 1)
  }

  lemma {:induction false} ParseAppend(a: string, b: string)
    requires AllDigits(a) && AllDigits(b)
    ensures AllDigits(a + b)
    ensures ParseDigits(a + b) == ParseDigits(a) * Pow10(|b|) + ParseDigits(b)
    decreases |b|
  {
    if b == [] {
      assert a + b == a;
    } else {
      var b' := b[..|b| - 1];
      assert (a + b)[..|a + b| - 1] == a + b';
      assert (a + b)[|a + b| - 1] == b[|b| - 1];
      ParseAppend(a, b');
      var pa, pb, x, last := ParseDigits(a), ParseDigits(b'), Pow10(|b'|), DigitValue(b[|b| - 1]);
      assert ParseDigits(a + b) == ParseDigits(a + b') * 10 + last;
      assert ParseDigits(b) == pb * 10 + last;
      assert Pow10(|b|) == 10 * x;
      ShiftDecimal(pa, x, pb);
    }
  }

  lemma ShiftDecimal(a: int, x: int, b: int)
    ensures (a * x + b) * 10 == a * (10 * x) + b * 10
  {
  }

  lemma {:induction false} ParseDecimal(n: nat)
    ensures ParseDigits(Decimal(n)) == n
    decreases n
  {
    if n >= 10 {
      var d := Decimal(n / 10) + [DigitChar(n % 10)];
      assert d[..|d| - 1] == Decimal(n / 10);
      ParseDecimal(n / 10);
    }
  }

  /** Three digits with leading zeros, the digit groups after the first in `{:,}`. */
  function Pad3(r: nat): (s: string)
    requires r < 1000
    ensures |s| == 3 && AllDigits(s)
  {
    [DigitChar(r / 100), DigitChar(r / 10 % 10), DigitChar(r % 10)]
  }

  lemma ParsePad3(r: nat)
    requires r < 1000
    ensures ParseDigits(Pad3(r)) == r
  {
    var s := Pad3(r);
    var a, b, c := r / 100, r / 10 % 10, r % 10;
    assert r / 10 == 10 * a + b;
    assert r == 10 * (r / 10) + c;
    assert s[..2][..1] == s[..1] && s[..1][..0] == [];
    assert ParseDigits(s[..1]) == a;
    assert ParseDigits(s[..2]) == 10 * a + b;
    assert ParseDigits(s) == ParseDigits(s[..2]) * 10 + c;
  }

  /** Python `f"{n:,}"` for a natural number: decimal digits in comma-separated groups of three. */
  function Grouped(n: nat): string {
    if n < 1000 then Decimal(n) else Grouped(n / 1000) + "," + Pad3(n % 1000)
  }

  /** Removing the commas from `{:,}` leaves the plain digits of the number. */
  lemma {:induction false} GroupedDigits(n: nat)
    ensures IsDigits(RemoveChar(Grouped(n), ','))
    ensures ParseDigits(RemoveChar(Grouped(n), ',')) == n
    decreases n
  {
    if n < 1000 {
      RemoveCharAbsent(Decimal(n), ',');
      ParseDecimal(n);
    } else {
      var q, r := n / 1000, n % 1000;
      GroupedDigits(q);
      var h := RemoveChar(Grouped(q), ',');
      DropGroupComma(Grouped(q), Pad3(r));
      assert RemoveChar(Grouped(n), ',') == h + Pad3(r);
      ParseGroup(h, r);
      assert n == q * 1000 + r;
    }
  }

  lemma {:induction false} DropGroupComma(h: string, p: string)
    requires AllDigits(p)
    ensures RemoveChar(h + "," + p, ',') == RemoveChar(h, ',') + p
    decreases |h|
  {
    if h == [] {
      assert h + "," + p == [','] + p;
      assert ([','] + p)[1..] == p;
      RemoveCharAbsent(p, ',');
    } else {
      assert (h + "," + p)[0] == h[0];
      assert (h + "," + p)[1..] == h[1..] + "," + p;
      DropGroupComma(h[1..], p);
    }
  }

  lemma ParseGroup(h: string, r: nat)
    requires AllDigits(h) && r < 1000
    ensures AllDigits(h + Pad3(r))
    ensures ParseDigits(h + Pad3(r)) == ParseDigits(h) * 1000 + r
  {
    ParseAppend(h, Pad3(r));
    ParsePad3(r);
    assert Pow10(3) == 1000;
  }
}
