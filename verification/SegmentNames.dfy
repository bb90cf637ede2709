/**
 File names of segments and what a directory listing makes of them: names are printed with
 "segment_%04d" and scanned with the same verb, whose width then limits the digits read.
 */
module SegmentNames {
  import opened Bytes
  import opened FileKey

  const PREFIX: string := "segment_"
  const DAT: string := ".dat"
  const IDX: string := ".idx"
  const WIDTH: nat := 4
  const FIVE_DIGITS: nat := 10000

  /** Sprintf("%04d", id): at least four digits, zero-padded. */
  function Padded(id: nat): string {
    if id < FIVE_DIGITS then Four(id / 10 / 10 / 10, id / 10 / 10 % 10, id / 10 % 10, id % 10) else Digits(id)
  }

  function Four(a: nat, b: nat, c: nat, d: nat): string
    requires a < 10 && b < 10 && c < 10 && d < 10
  {
    [HEX[a], HEX[b], HEX[c], HEX[d]]
  }

  predicate IsDigit(c: char) {
    '0' <= c <= '9'
  }

  /** Scanning "%04d": at most `width` digits; returns the value and what is left. */
  function ScanInt(s: string, width: nat, acc: nat): (nat, string)
    decreases width
  {
    if width == 0 || s == "" || !IsDigit(s[0]) then (acc, s)
    else ScanInt(s[1..], width - 1, 10 * acc + (s[0] as nat - '0' as nat))
  }

  /** Sscanf(name, "segment_%04d" + ext): the id, unless the text does not match. */
  function Parse(name: string, ext: string): Option<nat> {
    if !(PREFIX <= name) then None else
    var rest := name[|PREFIX|..];
    if rest == "" || !IsDigit(rest[0]) then None else
    var (id, left) := ScanInt(rest, WIDTH, 0);
    if ext <= left then Some(id) else None
  }

  function FileName(id: nat, ext: string): string {
    PREFIX + Padded(id) + ext
  }

  /** Whether the listing sees the segment's file. */
  predicate Found(id: nat) {
    Parse(FileName(id, DAT), DAT) == Some(id)
  }

  lemma DigitChar(i: nat)
    requires i < 10
    ensures IsDigit(HEX[i]) && HEX[i] as nat - '0' as nat == i
  {
  }

  lemma {:induction false} DigitsAreDigits(n: nat, i: nat)
    requires i < |Digits(n)|
    ensures IsDigit(Digits(n)[i])
  {
    DigitChar(n % 10);
    if n >= 10 && i < |Digits(n / 10)| { DigitsAreDigits(n / 10, i); }
  }

  function Pow10(k: nat): (p: nat)
    ensures p > 0
  {
    if k == 0 then 1 else 10 * Pow10(k - 1)
  }

  lemma {:induction false} ManyDigits(n: nat, k: nat)
    requires n >= Pow10(k)
    ensures |Digits(n)| > k
    decreases k
  {
    if k > 0 {
      assert n / 10 >= Pow10(k - 1);
      ManyDigits(n / 10, k - 1);
    }
  }

  lemma FourScanned(a: char, b: char, c: char, d: char, rest: string)
    requires IsDigit(a) && IsDigit(b) && IsDigit(c) && IsDigit(d)
    ensures var v := (x: char) => x as int - '0' as int;
      ScanInt([a, b, c, d] + rest, WIDTH, 0) == (1000 * v(a) + 100 * v(b) + 10 * v(c) + v(d), rest)
  {
  }

  lemma NamePieces(id: nat, ext: string)
    ensures PREFIX <= FileName(id, ext) && FileName(id, ext)[|PREFIX|..] == Padded(id) + ext
  {
  }

  lemma FourDigitValue(id: nat)
    ensures id == 1000 * (id / 10 / 10 / 10) + 100 * (id / 10 / 10 % 10) + 10 * (id / 10 % 10) + id % 10
  {
  }

  lemma ShortParsed(id: nat, ext: string)
    requires id < FIVE_DIGITS
    ensures Parse(FileName(id, ext), ext) == Some(id)
  {
    NamePieces(id, ext);
    FourDigitValue(id);
    var a, b, c, d := id / 10 / 10 / 10, id / 10 / 10 % 10, id / 10 % 10, id % 10;
    DigitChar(a); DigitChar(b); DigitChar(c); DigitChar(d);
    hide FileName;
    FourScanned(HEX[a], HEX[b], HEX[c], HEX[d], ext);
  }

  lemma LongRejected(id: nat, ext: string)
    requires id >= FIVE_DIGITS && ext != "" && !IsDigit(ext[0])
    ensures Parse(FileName(id, ext), ext) == None
  {
    hide FileName;
    NamePieces(id, ext);
    assert Pow10(1) == 10 && Pow10(2) == 100 && Pow10(3) == 1000;
    ManyDigits(id, 4);
    var s := Digits(id);
    forall i | 0 <= i < |s| ensures IsDigit(s[i]) { DigitsAreDigits(id, i); }
    var rest := s[4..] + ext;
    assert s + ext == [s[0], s[1], s[2], s[3]] + rest;
    FourScanned(s[0], s[1], s[2], s[3], rest);
    assert rest[0] == s[4];
  }

  /** A listing sees exactly the segments below 10000; later ones are written but not found again. */
  lemma FoundIffFourDigits(id: nat, ext: string)
    requires ext == DAT || ext == IDX
    ensures Parse(FileName(id, ext), ext) == if id < FIVE_DIGITS then Some(id) else None
  {
    hide Parse, FileName;
    if id < FIVE_DIGITS { ShortParsed(id, ext); } else { LongRejected(id, ext); }
  }

  // ---- name order ----

  predicate NameLess(s: string, t: string) {
    t != "" && (s == "" || s[0] < t[0] || (s[0] == t[0] && NameLess(s[1..], t[1..])))
  }

  lemma {:induction false} SamePrefix(p: string, s: string, t: string)
    ensures NameLess(p + s, p + t) <==> NameLess(s, t)
  {
    if p == "" {
      assert p + s == s && p + t == t;
    } else {
      SamePrefix(p[1..], s, t);
      assert (p + s)[1..] == p[1..] + s && (p + t)[1..] == p[1..] + t;
    }
  }

  lemma Decided(p: string, x: char, s: string, y: char, t: string)
    requires x < y
    ensures NameLess(p + [x] + s, p + [y] + t) && !NameLess(p + [y] + t, p + [x] + s)
  {
    SamePrefix(p, [x] + s, [y] + t);
    SamePrefix(p, [y] + t, [x] + s);
    assert p + [x] + s == p + ([x] + s) && p + [y] + t == p + ([y] + t);
  }

  lemma HexOrder(i: nat, j: nat)
    requires i < 10 && j < 10
    ensures HEX[i] < HEX[j] <==> i < j
  {
  }

  lemma FourLess(a: nat, b: nat, c: nat, d: nat, a': nat, b': nat, c': nat, d': nat, ext: string)
    requires a < 10 && b < 10 && c < 10 && d < 10 && a' < 10 && b' < 10 && c' < 10 && d' < 10
    requires a < a' || (a == a' && (b < b' || (b == b' && (c < c' || (c == c' && d < d')))))
    ensures NameLess(Four(a, b, c, d) + ext, Four(a', b', c', d') + ext)
  {
    var s, t := Four(a, b, c, d) + ext, Four(a', b', c', d') + ext;
    var i := if a != a' then 0 else if b != b' then 1 else if c != c' then 2 else 3;
    HexOrder(a, a'); HexOrder(b, b'); HexOrder(c, c'); HexOrder(d, d');
    assert s[..i] == t[..i] && s[i] < t[i];
    Decided(s[..i], s[i], s[i + 1..], t[i], t[i + 1..]);
    assert s == s[..i] + [s[i]] + s[i + 1..] && t == t[..i] + [t[i]] + t[i + 1..];
  }

  lemma PaddedLess(a: nat, b: nat, ext: string)
    requires a < b < FIVE_DIGITS
    ensures NameLess(Padded(a) + ext, Padded(b) + ext)
  {
    FourDigitValue(a);
    FourDigitValue(b);
    hide Four, NameLess;
    FourLess(a / 10 / 10 / 10, a / 10 / 10 % 10, a / 10 % 10, a % 10, b / 10 / 10 / 10, b / 10 / 10 % 10, b / 10 % 10, b % 10, ext);
  }

  /** Below 10000 the sorted directory listing is in segment order. */
  lemma NameOrderIsSegmentOrder(a: nat, b: nat, ext: string)
    requires a < b < FIVE_DIGITS
    ensures NameLess(FileName(a, ext), FileName(b, ext))
  {
    hide NameLess, Padded;
    PaddedLess(a, b, ext);
    SamePrefix(PREFIX, Padded(a) + ext, Padded(b) + ext);
    assert FileName(a, ext) == PREFIX + (Padded(a) + ext) && FileName(b, ext) == PREFIX + (Padded(b) + ext);
  }
}
