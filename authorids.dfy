/** Open Library author ids of the form `OL<number>A`: reading the number back
    (`authorIdNumber`), writing an id from a number (the template literal
    `OL${n}A`), and the random id of `setRandomAuthorId`. */
module AuthorIds {
  import opened Works

  predicate IsDigit(c: char) {
    '0' <= c <= '9'
  }

  predicate AllDigits(s: string) {
    forall i | 0 <= i < |s| :: IsDigit(s[i])
  }

  /** The longest prefix of s made of digits. */
  function DigitPrefix(s: string): (r: string)
    ensures |r| <= |s| && r == s[..|r|] && AllDigits(r)
    ensures |r| < |s| ==> !IsDigit(s[|r|])
  {
    if s == [] || !IsDigit(s[0]) then []
    else [s[0]] + DigitPrefix(s[1..])
  }

  /** The first match of the regular expression `\d+`: where it starts and what it is,
      or None when s holds no digit. */
  function FirstDigitRun(s: string): (r: Option<(nat, string)>)
    ensures r.None? <==> forall i | 0 <= i < |s| :: !IsDigit(s[i])
    ensures r.Some? ==>
      var (start, run) := r.value;
      && run != [] && AllDigits(run)
      && start + |run| <= |s| && s[start..start + |run|] == run
      && (forall i | 0 <= i < start :: !IsDigit(s[i]))
      && (start + |run| < |s| ==> !IsDigit(s[start + |run|]))
  {
    if s == [] then None
    else if IsDigit(s[0]) then Some((0, DigitPrefix(s)))
    else
      var later := FirstDigitRun(s[1..]);
      if later.None? then None
      else
        var (start, run) := later.value;
        assert s[start + 1..start + 1 + |run|] == s[1..][start..start + |run|];
        Some((start + 1, run))
  }

  function DigitValue(c: char): nat
    requires IsDigit(c)
  {
    (c as int) - ('0' as int)
  }

  function DigitChar(d: nat): (c: char)
    requires d < 10
    ensures IsDigit(c) && DigitValue(c) == d
  {
    ('0' as int + d) as char
  }

  /** `parseInt` of a string of decimal digits. */
  function DecimalValue(ds: string): nat
    requires AllDigits(ds)
  {
    if ds == [] then 0
    else DecimalValue(ds[..|ds| - 1]) * 10 + DigitValue(ds[|ds| - 1])
  }

  /** The decimal digits of n, without leading zeros: `${n}` for n >= 0. */
  function Decimal(n: nat): (r: string)
    ensures r != [] && AllDigits(r)
    ensures |r| > 1 ==> r[0] != '0'
  {
    if n < 10 then [DigitChar(n)] else Decimal(n / 10) + [DigitChar(n % 10)]
  }

  /** `${i}`: a minus sign before the digits of a negative number. */
  function IntToString(i: int): (r: string)
    ensures r != [] && (r[0] == '-' <==> i < 0)
    ensures AllDigits(if i < 0 then r[1..] else r)
  {
    if i < 0 then "-" + Decimal(-i) else Decimal(i)
  }

  /** The id the template literal `OL${n}A` builds. */
  function FormatAuthorId(n: int): string {
    "OL" + IntToString(n) + "A"
  }

  /** `authorIdNumber`: `parseInt(authorId.match(/\d+/)[0])`. When the id holds no digit,
      `match` returns null and the property access throws; that is None here. */
  function AuthorIdNumber(id: string): (r: Option<nat>)
    ensures r.None? <==> forall i | 0 <= i < |id| :: !IsDigit(id[i])
  {
    match FirstDigitRun(id)
    case None => None
    case Some((_, run)) => Some(DecimalValue(run))
  }

  lemma {:induction false} DecimalRoundTrip(n: nat)
    ensures DecimalValue(Decimal(n)) == n
  {
    var r := Decimal(n);
    if n >= 10 {
      DecimalRoundTrip(n / 10);
      assert r[..|r| - 1] == Decimal(n / 10);
    }
  }

  /** The run found in `prefix + digits + "A"`, when the prefix holds no digit, is the
      digits. */
  lemma {:induction false} FirstRunAfter(prefix: string, ds: string)
    requires forall i | 0 <= i < |prefix| :: !IsDigit(prefix[i])
    requires ds != [] && AllDigits(ds)
    ensures FirstDigitRun(prefix + ds + "A") == Some((|prefix|, ds))
  {
    var s := prefix + ds + "A";
    if prefix == [] {
      assert s == ds + "A";
      DigitsThenLetter(ds);
    } else {
      assert s[1..] == prefix[1..] + ds + "A";
      FirstRunAfter(prefix[1..], ds);
    }
  }

  lemma {:induction false} DigitsThenLetter(ds: string)
    requires AllDigits(ds)
    ensures DigitPrefix(ds + "A") == ds
  {
    if ds != [] {
      assert (ds + "A")[1..] == ds[1..] + "A";
      DigitsThenLetter(ds[1..]);
    }
  }

  /** The number read from `prefix + digits + "A"`, when the prefix holds no digit, is
      the value of the digits. */
  lemma NumberAfter(prefix: string, ds: string)
    requires forall i | 0 <= i < |prefix| :: !IsDigit(prefix[i])
    requires ds != [] && AllDigits(ds)
    ensures AuthorIdNumber(prefix + ds + "A") == Some(DecimalValue(ds))
  {
    FirstRunAfter(prefix, ds);
  }

  /** `OL${n}A` reads back as n for every n >= 0. */
  lemma IdRoundTrip(n: nat)
    ensures AuthorIdNumber(FormatAuthorId(n)) == Some(n)
  {
    FirstRunAfter("OL", Decimal(n));
    DecimalRoundTrip(n);
  }

  /** The minus sign is not a digit: `OL-5A` reads back as 5. */
  lemma NegativeIdReadsMagnitude(n: int)
    requires n < 0
    ensures AuthorIdNumber(FormatAuthorId(n)) == Some(-n)
  {
    var ds := Decimal(-n);
    assert FormatAuthorId(n) == "OL-" + ds + "A";
    NumberAfter("OL-", ds);
    DecimalRoundTrip(-n);
  }

  /** Different numbers give different ids: the sign shows at the third character, and
      the number read back tells two numbers of the same sign apart. */
  lemma FormatAuthorIdInjective(m: int, n: int)
    requires FormatAuthorId(m) == FormatAuthorId(n)
    ensures m == n
  {
    var id := FormatAuthorId(m);
    assert id[2] == IntToString(m)[0] && id[2] == IntToString(n)[0];
    if m >= 0 && n >= 0 {
      IdRoundTrip(m);
      IdRoundTrip(n);
    } else if m < 0 && n < 0 {
      NegativeIdReadsMagnitude(m);
      NegativeIdReadsMagnitude(n);
    }
  }

  /** The approximate highest author number (`highestAuthorId`). */
  const HighestAuthorId: nat := 9500000

  /** `Math.floor(Math.random() * highestAuthorId) + 1` for a draw r in [0, 1). */
  function RandomAuthorNumber(r: real): (n: nat)
    requires 0.0 <= r < 1.0
    ensures 1 <= n <= HighestAuthorId
  {
    var scaled := r * HighestAuthorId as real;
    assert 0.0 <= scaled < HighestAuthorId as real;
    scaled.Floor + 1
  }
}
