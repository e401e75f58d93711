/** String helpers shared by the components: decimal rendering (JavaScript `String(n)`),
    `padStart`, and splitting on a separator (JavaScript `String.prototype.split` and Go
    `strings.Split`, which agree for a non-empty separator). */
module Strings {

  predicate IsDigit(c: char) {
    '0' <= c <= '9'
  }

  function DigitChar(d: nat): (c: char)
    requires d < 10
    ensures IsDigit(c) && DigitValue(c) == d
  {
    ['0', '1', '2', '3', '4', '5', '6', '7', '8', '9'][d]
  }

  function DigitValue(c: char): nat
    requires IsDigit(c)
  {
    (c as int - '0' as int) as nat
  }

  predicate AllDigits(s: string) {
    forall k :: 0 <= k < |s| ==> IsDigit(s[k])
  }

  /** The value of a string of decimal digits, read from the right. */
  function DigitsValue(s: string): nat
    requires AllDigits(s)
  {
    if s == [] then 0 else DigitsValue(s[..|s| - 1]) * 10 + DigitValue(s[|s| - 1])
  }

  /** Decimal rendering of a natural number, as JavaScript's `String(n)` gives it. */
  function NatToString(n: nat): (r: string)
    ensures |r| >= 1 && AllDigits(r)
    ensures r[0] == '0' ==> n == 0
  {
    if n < 10 then [DigitChar(n)] else NatToString(n / 10) + [DigitChar(n % 10)]
  }

  /** `String(n)` can be read back: the rendering is injective. */
  lemma {:induction false} NatToStringRoundTrip(n: nat)
    ensures DigitsValue(NatToString(n)) == n
  {
    if n >= 10 {
      var r := NatToString(n);
      assert r[..|r| - 1] == NatToString(n / 10);
      NatToStringRoundTrip(n / 10);
    }
  }

  /** The number of digits of n. */
  lemma NatToStringLength(n: nat)
    ensures n < 10 ==> |NatToString(n)| == 1
    ensures 10 <= n < 100 ==> |NatToString(n)| == 2
    ensures 100 <= n < 1000 ==> |NatToString(n)| == 3
  {
  }

  /** Leading zeros do not change a digit string's value. */
  lemma {:induction false} LeadingZeros(k: nat, s: string)
    requires AllDigits(s)
    ensures AllDigits(Repeat('0', k) + s)
    ensures DigitsValue(Repeat('0', k) + s) == DigitsValue(s)
  {
    if k > 0 {
      LeadingZeros(k - 1, s);
      var t := Repeat('0', k - 1) + s;
      LeadingZero(t);
      assert Repeat('0', k) == ['0'] + Repeat('0', k - 1);
      assert Repeat('0', k) + s == ['0'] + t;
    } else {
      assert Repeat('0', k) + s == s;
    }
  }

  lemma {:induction false} LeadingZero(s: string)
    requires AllDigits(s)
    ensures AllDigits(['0'] + s) && DigitsValue(['0'] + s) == DigitsValue(s)
  {
    if s != [] {
      var t := ['0'] + s;
      assert t[..|t| - 1] == ['0'] + s[..|s| - 1];
      LeadingZero(s[..|s| - 1]);
    }
  }

  function Repeat(c: char, k: nat): (r: string)
    ensures |r| == k && forall i :: 0 <= i < k ==> r[i] == c
  {
    if k == 0 then [] else [c] + Repeat(c, k - 1)
  }

  /** JavaScript `s.padStart(width, c)` for a one-character pad string: padded on the left
      up to `width`, and left alone when already that long. */
  function PadStart(s: string, width: nat, c: char): (r: string)
    ensures |r| == if |s| >= width then |s| else width
    ensures r[|r| - |s|..] == s
    ensures forall i :: 0 <= i < |r| - |s| ==> r[i] == c
  {
    if |s| >= width then s else Repeat(c, width - |s|) + s
  }

  /** `sep` occurs in `s` starting at position `j`. */
  predicate OccursAt(s: string, sep: string, j: nat) {
    j + |sep| <= |s| && s[j..j + |sep|] == sep
  }

  /** Splitting on a non-empty separator: the pieces between the leftmost non-overlapping
      occurrences of `sep`. There is always at least one piece, so `"".split(sep)` is `[""]`. */
  function Split(s: string, sep: string): (parts: seq<string>)
    requires |sep| > 0
    ensures |parts| >= 1
    decreases |s|
  {
    if |s| < |sep| then [s]
    else if OccursAt(s, sep, 0) then [""] + Split(s[|sep|..], sep)
    else
      var rest := Split(s[1..], sep);
      [[s[0]] + rest[0]] + rest[1..]
  }

  /** Joining pieces back with the separator, as `parts.join(sep)` does. */
  function Join(parts: seq<string>, sep: string): (r: string)
    requires |parts| >= 1
    ensures parts[0] <= r
    ensures |parts| > 1 ==> parts[0] + sep <= r
  {
    if |parts| == 1 then parts[0] else parts[0] + sep + Join(parts[1..], sep)
  }

  /** Splitting loses nothing: joining the pieces gives back the string. */
  lemma {:induction false} SplitJoin(s: string, sep: string)
    requires |sep| > 0
    ensures Join(Split(s, sep), sep) == s
    decreases |s|
  {
    if |s| < |sep| {
      assert Split(s, sep) == [s];
    } else if OccursAt(s, sep, 0) {
      var t := s[|sep|..];
      assert Split(s, sep) == [""] + Split(t, sep);
      SplitJoin(t, sep);
      JoinFront("", Split(t, sep), sep);
      assert s == sep + t by { assert s[..|sep|] == sep; }
    } else {
      var t := s[1..];
      var rest := Split(t, sep);
      assert Split(s, sep) == [[s[0]] + rest[0]] + rest[1..];
      SplitJoin(t, sep);
      JoinPrepend(s[0], rest, sep);
      assert s == [s[0]] + t;
    }
  }

  /** Joining a piece in front of at least one other puts the separator between. */
  lemma JoinFront(x: string, parts: seq<string>, sep: string)
    requires |parts| >= 1
    ensures Join([x] + parts, sep) == x + sep + Join(parts, sep)
  {
    assert ([x] + parts)[1..] == parts;
  }

  /** Putting a character in front of the first piece puts it in front of the joined text. */
  lemma JoinPrepend(c: char, rest: seq<string>, sep: string)
    requires |rest| >= 1
    ensures Join([[c] + rest[0]] + rest[1..], sep) == [c] + Join(rest, sep)
  {
    var parts := [[c] + rest[0]] + rest[1..];
    if |rest| > 1 {
      assert parts[1..] == rest[1..];
    }
  }

  predicate NoOccurrenceBefore(s: string, sep: string, n: nat) {
    forall j :: 0 <= j < n ==> !OccursAt(s, sep, j)
  }

  /** When the first occurrence of `sep` in `a + sep + b` is the one right after `a`,
      the first piece is `a` and the others are the pieces of `b`. */
  lemma {:induction false} SplitAtFirst(a: string, sep: string, b: string)
    requires |sep| > 0
    requires NoOccurrenceBefore(a + sep + b, sep, |a|)
    ensures Split(a + sep + b, sep) == [a] + Split(b, sep)
    decreases |a|
  {
    var s := a + sep + b;
    if a == [] {
      assert OccursAt(s, sep, 0);
      assert s[|sep|..] == b;
    } else {
      assert !OccursAt(s, sep, 0);
      assert s[1..] == a[1..] + sep + b;
      forall j | 0 <= j < |a| - 1 ensures !OccursAt(s[1..], sep, j) {
        assert !OccursAt(s, sep, j + 1);
        assert s[1..][j..j + |sep|] == s[j + 1..j + 1 + |sep|];
      }
      SplitAtFirst(a[1..], sep, b);
      assert [s[0]] + a[1..] == a;
    }
  }

  /** The first piece is the text before the first occurrence of `sep`, or the whole of
      `s` when `sep` does not occur in it. */
  lemma {:induction false} FirstPiece(s: string, sep: string)
    requires |sep| > 0
    ensures Split(s, sep)[0] <= s
    ensures NoOccurrenceBefore(s, sep, |Split(s, sep)[0]|)
    ensures |Split(s, sep)[0]| == |s| || OccursAt(s, sep, |Split(s, sep)[0]|)
    decreases |s|
  {
    if |s| >= |sep| && !OccursAt(s, sep, 0) {
      var t := s[1..];
      var q := Split(t, sep)[0];
      assert Split(s, sep)[0] == [s[0]] + q;
      FirstPiece(t, sep);
      FirstPieceStep(s, sep, q);
    }
  }

  /** The step of FirstPiece: a first piece of the tail, with one character put back. */
  lemma FirstPieceStep(s: string, sep: string, q: string)
    requires |s| >= 1 && !OccursAt(s, sep, 0)
    requires q <= s[1..] && NoOccurrenceBefore(s[1..], sep, |q|)
    requires |q| == |s| - 1 || OccursAt(s[1..], sep, |q|)
    ensures [s[0]] + q <= s
    ensures NoOccurrenceBefore(s, sep, |q| + 1)
    ensures |q| + 1 == |s| || OccursAt(s, sep, |q| + 1)
  {
    assert [s[0]] + s[1..] == s;
    forall j | 1 <= j <= |q| ensures !OccursAt(s, sep, j) {
      OccursShift(s, sep, j);
    }
    if |q| + 1 < |s| {
      OccursShift(s, sep, |q| + 1);
    }
  }

  /** An occurrence past the first character is an occurrence in the tail, one place earlier. */
  lemma OccursShift(s: string, sep: string, j: nat)
    requires 1 <= j <= |s|
    ensures OccursAt(s, sep, j) <==> OccursAt(s[1..], sep, j - 1)
  {
    if j + |sep| <= |s| {
      var t := s[1..];
      forall k | j <= k < j + |sep| ensures s[k] == t[k - 1] { }
      assert s[j..j + |sep|] == t[j - 1..j - 1 + |sep|];
    }
  }

  /** A string with no occurrence of `sep` is a single piece. */
  lemma {:induction false} SplitWithout(s: string, sep: string)
    requires |sep| > 0
    requires NoOccurrenceBefore(s, sep, |s|)
    ensures Split(s, sep) == [s]
    decreases |s|
  {
    if |s| >= |sep| {
      assert !OccursAt(s, sep, 0);
      forall j | 0 <= j < |s| - 1 ensures !OccursAt(s[1..], sep, j) {
        assert !OccursAt(s, sep, j + 1);
        if j + |sep| <= |s| - 1 {
          assert s[1..][j..j + |sep|] == s[j + 1..j + 1 + |sep|];
        }
      }
      SplitWithout(s[1..], sep);
      assert [s[0]] + s[1..] == s;
    }
  }

  /** For a one-character separator, no piece contains the separator. */
  lemma {:induction false} SplitPiecesWithoutSeparator(s: string, c: char)
    ensures forall k :: 0 <= k < |Split(s, [c])| ==> c !in Split(s, [c])[k]
    decreases |s|
  {
    if |s| >= 1 {
      SplitPiecesWithoutSeparator(s[1..], c);
      if s[0] != c {
        assert !OccursAt(s, [c], 0);
      } else {
        assert OccursAt(s, [c], 0);
      }
    }
  }

  /** For a one-character separator, "no occurrence before n" is "the character is absent". */
  lemma NoCharOccurrence(a: string, c: char, rest: string)
    requires c !in a
    ensures NoOccurrenceBefore(a + rest, [c], |a|)
  {
    forall j | 0 <= j < |a| ensures !OccursAt(a + rest, [c], j) {
      if j + 1 <= |a + rest| {
        assert (a + rest)[j..j + 1] == [a[j]];
      }
    }
  }
}
