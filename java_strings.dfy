/**
 * The parts of java.lang.String and java.lang.Integer that the container relies on:
 * natural string order (String.compareTo), Integer.toString, and String.split with a
 * literal separator.
 */
module JavaStrings {
  import opened Wrappers

  /** `a.compareTo(b) < 0`: the first differing character decides; a proper prefix comes first. */
  predicate Less(a: string, b: string)
    decreases |a|
  {
    if |a| == 0 then |b| > 0
    else if |b| == 0 then false
    else if a[0] != b[0] then a[0] < b[0]
    else Less(a[1..], b[1..])
  }

  lemma {:induction false} LessIrreflexive(a: string)
    ensures !Less(a, a)
    decreases |a|
  {
    if |a| > 0 {
      LessIrreflexive(a[1..]);
    }
  }

  lemma {:induction false} LessTransitive(a: string, b: string, c: string)
    requires Less(a, b) && Less(b, c)
    ensures Less(a, c)
    decreases |a|
  {
    if |a| > 0 && a[0] == b[0] && b[0] == c[0] {
      LessTransitive(a[1..], b[1..], c[1..]);
    }
  }

  lemma LessAsymmetric(a: string, b: string)
    requires Less(a, b)
    ensures !Less(b, a) && a != b
  {
    LessIrreflexive(a);
    if Less(b, a) {
      LessTransitive(a, b, a);
    }
  }

  lemma {:induction false} LessTotal(a: string, b: string)
    requires a != b
    ensures Less(a, b) || Less(b, a)
    decreases |a|
  {
    if |a| > 0 && |b| > 0 && a[0] == b[0] {
      assert a == [a[0]] + a[1..] && b == [b[0]] + b[1..];
      LessTotal(a[1..], b[1..]);
    }
  }

  /** Strings sharing a prefix compare as their remainders do. */
  lemma {:induction false} LessCommonPrefix(p: string, a: string, b: string)
    ensures Less(p + a, p + b) <==> Less(a, b)
    decreases |p|
  {
    if |p| > 0 {
      assert (p + a)[1..] == p[1..] + a;
      assert (p + b)[1..] == p[1..] + b;
      LessCommonPrefix(p[1..], a, b);
    } else {
      assert p + a == a && p + b == b;
    }
  }

  function DigitChar(d: nat): (c: char)
    requires d < 10
    ensures '0' <= c <= '9'
  {
    (48 + d) as char
  }

  /** The decimal digits of a natural number, most significant first, without leading zeros. */
  function Digits(n: nat): (s: string)
    ensures |s| >= 1
    decreases n
  {
    if n < 10 then [DigitChar(n)] else Digits(n / 10) + [DigitChar(n % 10)]
  }

  /** Integer.toString: an optional minus sign followed by the digits of the magnitude. */
  function DecimalString(n: int): string
    decreases if n < 0 then 1 else 0
  {
    if n < 0 then "-" + DecimalString(-n) else Digits(n)
  }

  lemma {:induction false} DigitsAreDigits(n: nat)
    ensures forall i :: 0 <= i < |Digits(n)| ==> '0' <= Digits(n)[i] <= '9'
    decreases n
  {
    if n >= 10 {
      DigitsAreDigits(n / 10);
    }
  }

  /** Integer.toString never produces an ampersand, so it cannot contain the container's separator. */
  lemma DecimalStringHasNoAmpersand(n: int)
    ensures forall i :: 0 <= i < |DecimalString(n)| ==> DecimalString(n)[i] != '&'
  {
    if n < 0 {
      DigitsAreDigits(-n);
      assert forall i :: 1 <= i < |DecimalString(n)| ==> DecimalString(n)[i] == Digits(-n)[i - 1];
    } else {
      DigitsAreDigits(n);
    }
  }

  lemma {:induction false} DigitsInjective(a: nat, b: nat)
    requires Digits(a) == Digits(b)
    ensures a == b
    decreases a
  {
    var da, db := Digits(a), Digits(b);
    if a >= 10 && b >= 10 {
      assert DigitChar(a % 10) == da[|da| - 1] == db[|db| - 1] == DigitChar(b % 10);
      assert Digits(a / 10) == da[..|da| - 1] == db[..|db| - 1] == Digits(b / 10);
      DigitsInjective(a / 10, b / 10);
    } else if a < 10 && b < 10 {
      assert DigitChar(a) == da[0] == db[0] == DigitChar(b);
    }
  }

  /** Different integers have different decimal strings. */
  lemma DecimalStringInjective(a: int, b: int)
    requires DecimalString(a) == DecimalString(b)
    ensures a == b
  {
    DigitsAreDigits(if a < 0 then -a else a);
    DigitsAreDigits(if b < 0 then -b else b);
    var sa, sb := DecimalString(a), DecimalString(b);
    assert sa[0] == '-' <==> a < 0;
    assert sb[0] == '-' <==> b < 0;
    if a < 0 {
      assert Digits(-a) == sa[1..] == sb[1..] == Digits(-b);
      DigitsInjective(-a, -b);
    } else {
      DigitsInjective(a, b);
    }
  }

  predicate OccursAt(s: string, sep: string, i: nat)
  {
    i + |sep| <= |s| && s[i..i + |sep|] == sep
  }

  lemma OccursAtShift(s: string, sep: string, j: nat)
    requires |s| > 0
    ensures OccursAt(s, sep, j + 1) <==> OccursAt(s[1..], sep, j)
  {
    if j + 1 + |sep| <= |s| {
      assert s[j + 1..j + 1 + |sep|] == s[1..][j..j + |sep|];
    }
  }

  /** The leftmost occurrence of `sep` in `s` (the position where a regex search first matches). */
  function Find(s: string, sep: string): (r: Option<nat>)
    ensures r.Some? ==> r.value + |sep| <= |s|
    decreases |s|
  {
    if |s| < |sep| then None
    else if s[..|sep|] == sep then Some(0)
    else
      match Find(s[1..], sep)
      case None => None
      case Some(i) => Some(i + 1)
  }

  /** Find reports an occurrence exactly when there is one, and then the leftmost. */
  lemma {:induction false} FindIsLeftmost(s: string, sep: string)
    ensures Find(s, sep).Some? ==> OccursAt(s, sep, Find(s, sep).value)
    ensures Find(s, sep).Some? ==> forall j: nat :: j < Find(s, sep).value ==> !OccursAt(s, sep, j)
    ensures Find(s, sep).None? ==> forall j: nat :: !OccursAt(s, sep, j)
    decreases |s|
  {
    if |s| >= |sep| && s[..|sep|] != sep {
      FindIsLeftmost(s[1..], sep);
      forall j: nat ensures OccursAt(s, sep, j + 1) <==> OccursAt(s[1..], sep, j) {
        OccursAtShift(s, sep, j);
      }
      assert !OccursAt(s, sep, 0);
      forall j: nat | OccursAt(s, sep, j) ensures j > 0 && OccursAt(s[1..], sep, j - 1) {
        OccursAtShift(s, sep, j - 1);
      }
    }
  }

  /** An occurrence with none before it is the one Find reports. */
  lemma FindLeftmost(s: string, sep: string, i: nat)
    requires OccursAt(s, sep, i)
    requires forall j: nat :: j < i ==> !OccursAt(s, sep, j)
    ensures Find(s, sep) == Some(i)
  {
    FindIsLeftmost(s, sep);
  }

  /** A string with no occurrence is one where Find reports none. */
  lemma FindAbsent(s: string, sep: string)
    requires forall j: nat :: !OccursAt(s, sep, j)
    ensures Find(s, sep) == None
  {
    FindIsLeftmost(s, sep);
  }

  /** The pieces between successive leftmost, non-overlapping occurrences of `sep`. */
  function SplitAll(s: string, sep: string): (pieces: seq<string>)
    requires |sep| > 0
    ensures |pieces| >= 1
    decreases |s|
  {
    match Find(s, sep)
    case None => [s]
    case Some(i) => [s[..i]] + SplitAll(s[i + |sep|..], sep)
  }

  /** Drops the empty strings at the end of a list of pieces. */
  function StripTrailingEmpty(pieces: seq<string>): (r: seq<string>)
    ensures r <= pieces
    ensures |r| == 0 || r[|r| - 1] != ""
    decreases |pieces|
  {
    if |pieces| > 0 && pieces[|pieces| - 1] == "" then StripTrailingEmpty(pieces[..|pieces| - 1])
    else pieces
  }

  /** A non-empty piece survives, and so does every piece before it. */
  lemma {:induction false} StripKeepsNonEmpty(pieces: seq<string>, i: nat)
    requires i < |pieces| && pieces[i] != ""
    ensures i < |StripTrailingEmpty(pieces)| && StripTrailingEmpty(pieces)[i] == pieces[i]
    decreases |pieces|
  {
    if pieces[|pieces| - 1] == "" {
      StripKeepsNonEmpty(pieces[..|pieces| - 1], i);
    }
  }

  /**
   * String.split(sep) for a separator without regex metacharacters: a string with no
   * match comes back whole; otherwise the pieces, with trailing empty ones removed.
   */
  function Split(s: string, sep: string): seq<string>
    requires |sep| > 0
  {
    var all := SplitAll(s, sep);
    if |all| == 1 then all else StripTrailingEmpty(all)
  }
}
