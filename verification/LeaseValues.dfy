/** internal/redis/keys.go: the lease value "ride:token:version" and its parser. */
module LeaseValues {
  import opened Common

  const MAX_UINT64: nat := 0xFFFF_FFFF_FFFF_FFFF
  const SEP: char := ':'

  datatype Lease = Lease(ride: string, token: string, version: nat)

  // ---------- formatting ----------

  function Digit(d: nat): char
    requires d < 10
  {
    ('0' as int + d) as char
  }

  /** Decimal rendering of %d for an unsigned number. */
  function Decimal(n: nat): string {
    if n < 10 then [Digit(n)] else Decimal(n / 10) + [Digit(n % 10)]
  }

  function Encode(l: Lease): string {
    l.ride + [SEP] + (l.token + [SEP] + Decimal(l.version))
  }

  // ---------- parsing ----------

  /** strings.Split on one separator character: always at least one part. */
  function Split(s: string, sep: char): (parts: seq<string>)
    ensures |parts| >= 1
  {
    if s == "" then [""]
    else
      var rest := Split(s[1..], sep);
      if s[0] == sep then [""] + rest else [[s[0]] + rest[0]] + rest[1..]
  }

  predicate IsDigit(c: char) { '0' <= c <= '9' }

  function DigitsValue(s: string): nat
    requires forall c :: c in s ==> IsDigit(c)
  {
    if s == "" then 0
    else
      assert IsDigit(s[|s| - 1]);
      DigitsValue(s[..|s| - 1]) * 10 + (s[|s| - 1] as int - '0' as int)
  }

  /** strconv.ParseUint(s, 10, 64): digits only, not empty, in range. */
  function ParseUint(s: string): Option<nat> {
    if s == "" || exists c :: c in s && !IsDigit(c) then None
    else if DigitsValue(s) > MAX_UINT64 then None
    else Some(DigitsValue(s))
  }

  function Parse(s: string): Option<Lease> {
    var parts := Split(s, SEP);
    if |parts| != 3 then None
    else match ParseUint(parts[2])
      case None => None
      case Some(v) => Some(Lease(parts[0], parts[1], v))
  }

  // ---------- round trip ----------

  lemma {:induction false} DecimalDigits(n: nat)
    ensures forall c :: c in Decimal(n) ==> IsDigit(c)
    ensures Decimal(n) != "" && DigitsValue(Decimal(n)) == n
  {
    if n < 10 {
      assert Decimal(n)[..0] == "";
    } else {
      DecimalDigits(n / 10);
      var s := Decimal(n);
      assert s[..|s| - 1] == Decimal(n / 10);
    }
  }

  lemma {:induction false} SplitOnlyPart(a: string, sep: char)
    ensures sep !in a <==> |Split(a, sep)| == 1
    ensures sep !in a ==> Split(a, sep) == [a]
  {
    if a != "" {
      SplitOnlyPart(a[1..], sep);
      assert a == [a[0]] + a[1..];
    }
  }

  lemma {:induction false} SplitJoin(a: string, b: string, sep: char)
    ensures |Split(a + [sep] + b, sep)| == |Split(a, sep)| + |Split(b, sep)|
    ensures sep !in a ==> Split(a + [sep] + b, sep) == [a] + Split(b, sep)
  {
    var s := a + [sep] + b;
    if a == "" {
      assert s[1..] == b;
    } else {
      SplitJoin(a[1..], b, sep);
      assert s[1..] == a[1..] + [sep] + b;
      assert a == [a[0]] + a[1..];
    }
  }

  /** Parsing undoes formatting on exactly the leases whose ride and token are free of ':'. */
  lemma RoundTrip(l: Lease)
    requires l.version <= MAX_UINT64
    ensures Parse(Encode(l)) == Some(l) <==> SEP !in l.ride && SEP !in l.token
    ensures SEP in l.ride || SEP in l.token ==> Parse(Encode(l)) == None
  {
    var v := Decimal(l.version);
    DecimalDigits(l.version);
    SplitOnlyPart(v, SEP);
    SplitOnlyPart(l.token, SEP);
    SplitOnlyPart(l.ride, SEP);
    SplitJoin(l.token, v, SEP);
    var tail := l.token + [SEP] + v;
    SplitJoin(l.ride, tail, SEP);
    assert Encode(l) == l.ride + [SEP] + tail;
  }

  // ---------- what parses ----------

  lemma {:induction false} PartsAreFree(s: string, sep: char)
    ensures forall i :: 0 <= i < |Split(s, sep)| ==> sep !in Split(s, sep)[i]
  {
    if s != "" { PartsAreFree(s[1..], sep); }
  }

  /** Cutting off the first part of a string with a separator. */
  lemma {:induction false} FirstPart(s: string, sep: char)
    requires |Split(s, sep)| > 1
    ensures var a := Split(s, sep)[0];
            |a| < |s| && s == a + [sep] + s[|a| + 1..] && Split(s[|a| + 1..], sep) == Split(s, sep)[1..]
  {
    if s[0] == sep {
      assert s == [sep] + s[1..];
    } else {
      FirstPart(s[1..], sep);
      var a := Split(s[1..], sep)[0];
      assert s[1..][|a| + 1..] == s[|a| + 2..];
    }
  }

  lemma DigitsAreNoSeparator(v: string)
    requires forall c :: c in v ==> IsDigit(c)
    ensures SEP !in v
  {}

  /** The three parts of a lease string that the parser takes apart. */
  predicate Reads(s: string, l: Lease, v: string) {
    && s == l.ride + [SEP] + (l.token + [SEP] + v)
    && SEP !in l.ride && SEP !in l.token
    && v != "" && (forall c :: c in v ==> IsDigit(c))
    && DigitsValue(v) == l.version <= MAX_UINT64
  }

  /** The parser accepts exactly ':'-free rides and tokens with a number of 64 bits behind them, leading zeros included,
      and returns these three. */
  lemma ParseIff(s: string, l: Lease)
    ensures Parse(s) == Some(l) <==> exists v :: Reads(s, l, v)
  {
    var parts := Split(s, SEP);
    PartsAreFree(s, SEP);
    if Parse(s) == Some(l) {
      FirstPart(s, SEP);
      var tail := s[|parts[0]| + 1..];
      FirstPart(tail, SEP);
      var v := tail[|parts[1]| + 1..];
      SplitOnlyPart(v, SEP);
      assert Split(v, SEP) == [parts[2]];
      assert Reads(s, l, v);
    }
    if v :| Reads(s, l, v) {
      DigitsAreNoSeparator(v);
      SplitOnlyPart(v, SEP);
      SplitJoin(l.token, v, SEP);
      SplitJoin(l.ride, l.token + [SEP] + v, SEP);
    }
  }

  // ---------- injectivity ----------

  lemma LaterSeparatorIsInside(a: string, x: string, b: string, y: string, sep: char)
    requires a + [sep] + x == b + [sep] + y
    requires |a| < |b|
    ensures sep in x
  {
    assert (a + [sep] + x)[|b|] == (b + [sep] + y)[|b|] == sep;
    assert x[|b| - |a| - 1] == sep;
  }

  /** The last separator of a string is where a separator-free suffix starts. */
  lemma LastSeparator(a: string, x: string, b: string, y: string, sep: char)
    requires sep !in x && sep !in y
    requires a + [sep] + x == b + [sep] + y
    ensures a == b && x == y
  {
    if |a| < |b| {
      LaterSeparatorIsInside(a, x, b, y, sep);
    }
    if |b| < |a| {
      LaterSeparatorIsInside(b, y, a, x, sep);
    }
    var s := a + [sep] + x;
    assert a == s[..|a|] && b == s[..|b|];
    assert x == s[|a| + 1..] && y == s[|b| + 1..];
  }

  /** Lua compares lease strings; with ':'-free tokens that is lease equality, whatever the ride ids. */
  lemma EncodeInjective(l: Lease, k: Lease)
    requires SEP !in l.token && SEP !in k.token
    ensures Encode(l) == Encode(k) <==> l == k
  {
    if Encode(l) == Encode(k) {
      DecimalDigits(l.version);
      DecimalDigits(k.version);
      var p, q := l.ride + [SEP] + l.token, k.ride + [SEP] + k.token;
      assert Encode(l) == p + [SEP] + Decimal(l.version);
      assert Encode(k) == q + [SEP] + Decimal(k.version);
      LastSeparator(p, Decimal(l.version), q, Decimal(k.version), SEP);
      LastSeparator(l.ride, l.token, k.ride, k.token, SEP);
    }
  }

  /** Without that condition two different leases share one string. */
  lemma ColonInTokenCollides()
    ensures var l, k := Lease("a", "b:c", 1), Lease("a:b", "c", 1);
            l != k && Encode(l) == Encode(k)
  {
    assert Lease("a", "b:c", 1) != Lease("a:b", "c", 1);
    assert "a" + ":" + ("b:c" + ":" + Decimal(1)) == "a:b" + ":" + ("c" + ":" + Decimal(1));
  }
}
