/** packageFileKey and when two rows share a key (internal/ingestion/unpack_large.go). */
module FileKey {
  import opened Bytes
  import opened Metadata

  const HEX: string := "0123456789abcdef"

  function Digits(n: nat): (s: string)
    ensures |s| >= 1
  {
    if n < 10 then [HEX[n]] else Digits(n / 10) + [HEX[n % 10]]
  }

  function Decimal(n: int): string {
    if n < 0 then "-" + Digits(-n) else Digits(n)
  }

  function Hex(b: Bytes): (s: string)
    ensures |s| == 2 * |b|
  {
    if b == [] then "" else [HEX[b[0] as int / 16], HEX[b[0] as int % 16]] + Hex(b[1..])
  }

  function RoleName(r: Role): string {
    match r
    case Original => "original"
    case Member => "member"
    case UnpackError => "unpack_error"
  }

  function NameOf(f: FileIn): string {
    if f.name.Some? then f.name.value else ""
  }

  function SeqOf(f: FileIn): int {
    if f.seqNo.Some? then f.seqNo.value else -1
  }

  function PackageFileKey(f: FileIn): string {
    RoleName(f.role) + "|" + Decimal(SeqOf(f)) + "|" + NameOf(f) + "|" + Hex(f.blob)
  }

  predicate NoBar(s: string) {
    forall i :: 0 <= i < |s| ==> s[i] != '|'
  }

  lemma HexChar(i: nat, j: nat)
    requires i < 16 && j < 16
    ensures HEX[i] == HEX[j] <==> i == j
    ensures HEX[i] != '|' && HEX[i] != '-'
  {
  }

  lemma {:induction false} DigitsPlain(n: nat)
    ensures NoBar(Digits(n)) && Digits(n)[0] != '-'
  {
    HexChar(n % 10, 0);
    if n >= 10 { DigitsPlain(n / 10); }
  }

  lemma {:induction false} DigitsInjective(m: nat, n: nat)
    requires Digits(m) == Digits(n)
    ensures m == n
    decreases m
  {
    var s, t := Digits(m), Digits(n);
    assert s[|s| - 1] == HEX[m % 10] && t[|t| - 1] == HEX[n % 10];
    HexChar(m % 10, n % 10);
    if m >= 10 && n >= 10 {
      assert s[..|s| - 1] == Digits(m / 10) && t[..|t| - 1] == Digits(n / 10);
      DigitsInjective(m / 10, n / 10);
    }
  }

  lemma DecimalInjective(m: int, n: int)
    requires Decimal(m) == Decimal(n)
    ensures m == n
  {
    var a: nat, b: nat := if m < 0 then -m else m, if n < 0 then -n else n;
    DigitsPlain(a);
    DigitsPlain(b);
    assert m < 0 ==> Decimal(m)[0] == '-' && Decimal(m)[1..] == Digits(a);
    assert n < 0 ==> Decimal(n)[0] == '-' && Decimal(n)[1..] == Digits(b);
    DigitsInjective(a, b);
  }

  lemma DecimalPlain(n: int)
    ensures NoBar(Decimal(n))
  {
    DigitsPlain(if n < 0 then -n else n);
  }

  lemma {:induction false} HexInjective(a: Bytes, b: Bytes)
    requires Hex(a) == Hex(b)
    ensures a == b
  {
    if a != [] && b != [] {
      var s, t := Hex(a), Hex(b);
      assert s[0] == t[0] && s[1] == t[1];
      HexChar(a[0] as int / 16, b[0] as int / 16);
      HexChar(a[0] as int % 16, b[0] as int % 16);
      assert s[2..] == Hex(a[1..]) && t[2..] == Hex(b[1..]);
      HexInjective(a[1..], b[1..]);
      assert a == [a[0]] + a[1..] && b == [b[0]] + b[1..];
    }
  }

  lemma {:induction false} HexPlain(b: Bytes)
    ensures NoBar(Hex(b))
  {
    if b != [] {
      HexChar(b[0] as int / 16, 0);
      HexChar(b[0] as int % 16, 0);
      HexPlain(b[1..]);
    }
  }

  lemma SplitFirst(a: string, x: string, b: string, y: string)
    requires NoBar(a) && NoBar(b) && a + "|" + x == b + "|" + y
    ensures a == b && x == y
  {
    var s, t := a + "|" + x, b + "|" + y;
    assert s[|a|] == '|' && t[|b|] == '|';
    assert forall i :: 0 <= i < |a| ==> s[i] != '|';
    assert forall i :: 0 <= i < |b| ==> t[i] != '|';
    assert |a| == |b|;
    assert a == s[..|a|] && b == t[..|b|] && x == s[|a| + 1..] && y == t[|b| + 1..];
  }

  lemma SplitLast(x: string, a: string, y: string, b: string)
    requires NoBar(a) && NoBar(b) && x + "|" + a == y + "|" + b
    ensures x == y && a == b
  {
    var s, t := x + "|" + a, y + "|" + b;
    var i, j := |x|, |y|;
    assert s[i] == '|' && t[j] == '|';
    assert forall k :: i < k < |s| ==> s[k] != '|' by { assert forall k :: i < k < |s| ==> s[k] == a[k - i - 1]; }
    assert forall k :: j < k < |t| ==> t[k] != '|' by { assert forall k :: j < k < |t| ==> t[k] == b[k - j - 1]; }
    assert i == j;
    assert x == s[..i] && y == t[..j] && a == s[i + 1..] && b == t[j + 1..];
  }

  function NameAndBlob(f: FileIn): string {
    NameOf(f) + "|" + Hex(f.blob)
  }

  function SeqNameAndBlob(f: FileIn): string {
    Decimal(SeqOf(f)) + "|" + NameAndBlob(f)
  }

  lemma KeyShape(f: FileIn)
    ensures PackageFileKey(f) == RoleName(f.role) + "|" + SeqNameAndBlob(f)
  {
    hide Decimal, Hex, RoleName;
  }

  lemma RoleNamesDiffer(r: Role, q: Role)
    ensures RoleName(r) == RoleName(q) <==> r == q
    ensures NoBar(RoleName(r))
  {
  }

  /** Two rows share a key exactly when they agree on role, sequence number, name and blob. */
  lemma KeyInjective(f: FileIn, g: FileIn)
    ensures PackageFileKey(f) == PackageFileKey(g) <==>
      f.role == g.role && SeqOf(f) == SeqOf(g) && NameOf(f) == NameOf(g) && f.blob == g.blob
  {
    hide Decimal, Hex, RoleName, PackageFileKey, NoBar, SeqOf, NameOf;
    KeyShape(f);
    KeyShape(g);
    if PackageFileKey(f) == PackageFileKey(g) {
      RoleNamesDiffer(f.role, g.role);
      RoleNamesDiffer(g.role, f.role);
      SplitFirst(RoleName(f.role), SeqNameAndBlob(f), RoleName(g.role), SeqNameAndBlob(g));
      DecimalPlain(SeqOf(f));
      DecimalPlain(SeqOf(g));
      SplitFirst(Decimal(SeqOf(f)), NameAndBlob(f), Decimal(SeqOf(g)), NameAndBlob(g));
      DecimalInjective(SeqOf(f), SeqOf(g));
      HexPlain(f.blob);
      HexPlain(g.blob);
      SplitLast(NameOf(f), Hex(f.blob), NameOf(g), Hex(g.blob));
      HexInjective(f.blob, g.blob);
    }
  }
}
