/** The string keys "logical:path:real" under which offset mappings are stored. */
module MappingKey {

  function Digit(d: nat): char
    requires d < 10
  {
    (48 + d) as char
  }

  function Decimal(n: nat): (s: string)
    ensures |s| > 0
  {
    if n < 10 then [Digit(n)] else Decimal(n / 10) + [Digit(n % 10)]
  }

  function Key(logical: nat, path: string, realStream: nat): string
  {
    Decimal(logical) + ":" + path + ":" + Decimal(realStream)
  }

  // ---------------------------------------------------------------------------
  // Reading a key back

  function Undecimal(s: string): int
  {
    if s == [] then 0 else 10 * Undecimal(s[..|s| - 1]) + s[|s| - 1] as int - 48
  }

  lemma {:induction false} UndecimalDecimal(n: nat)
    ensures Undecimal(Decimal(n)) == n
  {
    if n >= 10 {
      var s := Decimal(n);
      UndecimalDecimal(n / 10);
      assert s[..|s| - 1] == Decimal(n / 10);
      assert n == 10 * (n / 10) + n % 10;
    } else {
      assert Decimal(n)[..0] == [];
    }
  }

  lemma {:induction false} DecimalHasNoColon(n: nat)
    ensures ':' !in Decimal(n)
  {
    if n >= 10 {
      DecimalHasNoColon(n / 10);
    }
  }

  function FirstColon(s: string): (i: nat)
    ensures i <= |s|
  {
    if s == [] || s[0] == ':' then 0 else 1 + FirstColon(s[1..])
  }

  function LastColon(s: string): (i: nat)
    ensures s != [] ==> i < |s|
  {
    if s == [] then 0 else if s[|s| - 1] == ':' then |s| - 1 else LastColon(s[..|s| - 1])
  }

  lemma {:induction false} FirstColonAfter(a: string, b: string)
    requires ':' !in a
    ensures FirstColon(a + ":" + b) == |a|
  {
    var s := a + ":" + b;
    if a != [] {
      assert s[1..] == a[1..] + ":" + b;
      assert s[0] == a[0] && a[0] in a;
      FirstColonAfter(a[1..], b);
    }
  }

  lemma {:induction false} LastColonBefore(a: string, b: string)
    requires ':' !in b
    ensures LastColon(a + ":" + b) == |a|
  {
    var s := a + ":" + b;
    if b != [] {
      assert s[..|s| - 1] == a + ":" + b[..|b| - 1];
      assert s[|s| - 1] == b[|b| - 1] && b[|b| - 1] in b;
      LastColonBefore(a, b[..|b| - 1]);
    }
  }

  function ParseKey(k: string): (int, string, int)
  {
    var i, j := FirstColon(k), LastColon(k);
    if i < j < |k| then (Undecimal(k[..i]), k[i + 1..j], Undecimal(k[j + 1..])) else (0, "", 0)
  }

  /** The first and the last colon delimit the path, whatever the path contains. */
  lemma ParseKeyOfKey(logical: nat, path: string, realStream: nat)
    ensures ParseKey(Key(logical, path, realStream)) == (logical, path, realStream)
  {
    hide Decimal;
    hide Undecimal;
    hide FirstColon;
    hide LastColon;
    var a, b, k := Decimal(logical), Decimal(realStream), Key(logical, path, realStream);
    DecimalHasNoColon(logical);
    DecimalHasNoColon(realStream);
    assert k == a + ":" + (path + ":" + b);
    FirstColonAfter(a, path + ":" + b);
    LastColonBefore(a + ":" + path, b);
    assert k[..|a|] == a && k[|a| + 1..|a| + 1 + |path|] == path && k[|a| + 1 + |path| + 1..] == b;
    UndecimalDecimal(logical);
    UndecimalDecimal(realStream);
  }

  /** Different streams never share a key. */
  lemma KeyIsInjective(logical: nat, path: string, realStream: nat, logical': nat, path': string, realStream': nat)
    ensures Key(logical, path, realStream) == Key(logical', path', realStream')
       <==> logical == logical' && path == path' && realStream == realStream'
  {
    ParseKeyOfKey(logical, path, realStream);
    ParseKeyOfKey(logical', path', realStream');
  }
}
