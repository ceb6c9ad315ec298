/** The string that represents a ledger entry as a Merkle leaf, and what it determines. */
module HashInputs {
  import opened Foundations

  /** The columns of ledger_entries that anchoring uses. A missing timestamp is the empty string. */
  datatype Entry = Entry(id: nat, account: string, delta: string, createdAt: string, anchor: Option<nat>) {
    function HashInput(): string {
      Decimal(id) + ":" + account + ":" + delta + ":" + createdAt
    }
  }

  function Digit(n: nat): char
    requires n < 10
  {
    ('0' as int + n) as char
  }

  function Decimal(n: nat): (s: string)
    ensures |s| > 0
  {
    if n < 10 then [Digit(n)] else Decimal(n / 10) + [Digit(n % 10)]
  }

  lemma {:induction false} DecimalInjective(m: nat, n: nat)
    requires Decimal(m) == Decimal(n)
    ensures m == n
  {
    var s, t := Decimal(m), Decimal(n);
    assert s[|s| - 1] == Digit(m % 10) && t[|t| - 1] == Digit(n % 10);
    if m >= 10 && n >= 10 {
      assert Decimal(m / 10) == s[..|s| - 1] && Decimal(n / 10) == t[..|t| - 1];
      DecimalInjective(m / 10, n / 10);
    }
  }

  function Colons(s: string): nat {
    if s == [] then 0 else (if s[0] == ':' then 1 else 0) + Colons(s[1..])
  }

  lemma {:induction false} ColonsOfConcat(s: string, t: string)
    ensures Colons(s + t) == Colons(s) + Colons(t)
  {
    if s == [] {
      assert s + t == t;
    } else {
      ColonsOfConcat(s[1..], t);
      assert (s + t)[1..] == s[1..] + t;
    }
  }

  lemma {:induction false} DecimalHasNoColon(n: nat)
    ensures Colons(Decimal(n)) == 0
  {
    if n >= 10 {
      DecimalHasNoColon(n / 10);
      ColonsOfConcat(Decimal(n / 10), [Digit(n % 10)]);
    }
  }

  /** Splitting at a colon is unambiguous once the number of colons behind it is known. */
  lemma SplitFromRight(x: string, s: string, y: string, t: string)
    requires x + ":" + s == y + ":" + t && Colons(s) == Colons(t)
    ensures x == y && s == t
  {
    if |s| < |t| {
      LongerTailHasMoreColons(x, s, y, t);
    } else if |t| < |s| {
      LongerTailHasMoreColons(y, t, x, s);
    } else {
      var w := x + ":" + s;
      assert |w| == |x| + 1 + |s| == |y| + 1 + |t|;
      assert x == w[..|x|] && y == w[..|y|] && s == w[|x| + 1..] && t == w[|y| + 1..];
    }
  }

  lemma LongerTailHasMoreColons(x: string, s: string, y: string, t: string)
    requires x + ":" + s == y + ":" + t && |s| < |t|
    ensures Colons(s) < Colons(t)
  {
    var w := x + ":" + s;
    assert |w| == |x| + 1 + |s| == |y| + 1 + |t|;
    assert t == w[|y| + 1..];
    assert w[|x|..] == ":" + s;
    assert t == t[..|x| - |y| - 1] + (":" + s);
    ColonsOfConcat(t[..|x| - |y| - 1], ":" + s);
    ColonsOfConcat(":", s);
  }

  lemma SplitFromLeft(x: string, s: string, y: string, t: string)
    requires x + ":" + s == y + ":" + t && Colons(x) == Colons(y)
    ensures x == y && s == t
  {
    ColonsOfConcat(x + ":", s);
    ColonsOfConcat(x, ":");
    ColonsOfConcat(y + ":", t);
    ColonsOfConcat(y, ":");
    SplitFromRight(x, s, y, t);
  }

  /** Entries with different ids never share a leaf, whatever their other columns hold. */
  lemma HashInputFixesId(e: Entry, f: Entry)
    requires e.HashInput() == f.HashInput()
    ensures e.id == f.id
  {
    var s := e.account + ":" + e.delta + ":" + e.createdAt;
    var t := f.account + ":" + f.delta + ":" + f.createdAt;
    assert e.HashInput() == Decimal(e.id) + ":" + s;
    assert f.HashInput() == Decimal(f.id) + ":" + t;
    DecimalHasNoColon(e.id);
    DecimalHasNoColon(f.id);
    SplitFromLeft(Decimal(e.id), s, Decimal(f.id), t);
    DecimalInjective(e.id, f.id);
  }

  /** The free-text columns split at the same places. */
  ghost predicate SameColons(e: Entry, f: Entry) {
    Colons(e.delta) == Colons(f.delta) && Colons(e.createdAt) == Colons(f.createdAt)
  }

  /**
   * Two entries with one leaf agree in every hashed column exactly when their amounts and their timestamps
   * hold equally many colons; account names may hold any.
   */
  lemma HashInputFixesColumns(e: Entry, f: Entry)
    requires e.HashInput() == f.HashInput()
    ensures f == e.(anchor := f.anchor) <==> SameColons(e, f)
  {
    HashInputFixesId(e, f);
    if SameColons(e, f) {
      var x := Decimal(e.id) + ":" + e.account;
      var y := Decimal(f.id) + ":" + f.account;
      assert e.HashInput() == (x + ":" + e.delta) + ":" + e.createdAt;
      assert f.HashInput() == (y + ":" + f.delta) + ":" + f.createdAt;
      SplitFromRight(x + ":" + e.delta, e.createdAt, y + ":" + f.delta, f.createdAt);
      SplitFromRight(x, e.delta, y, f.delta);
      SplitFromLeft(Decimal(e.id), e.account, Decimal(f.id), f.account);
    }
  }

  /** As the source writes them: numbers carry no colon, and the timestamps of one column equally many. */
  ghost predicate Regular(e: Entry, stampColons: nat) {
    Colons(e.delta) == 0 && Colons(e.createdAt) == stampColons
  }

  /** An amount column that holds a colon can hide a change, at any id and timestamp: two entries, one leaf. */
  lemma ColonInAmountCanCollide(id: nat, account: string, extra: string, delta: string, createdAt: string)
    ensures var e := Entry(id, account, extra + ":" + delta, createdAt, None);
            var f := Entry(id, account + ":" + extra, delta, createdAt, None);
            e != f && e.HashInput() == f.HashInput()
  {
    var e := Entry(id, account, extra + ":" + delta, createdAt, None);
    var f := Entry(id, account + ":" + extra, delta, createdAt, None);
    assert e.HashInput() == Decimal(id) + ":" + account + ":" + extra + ":" + delta + ":" + createdAt;
    assert f.HashInput() == Decimal(id) + ":" + account + ":" + extra + ":" + delta + ":" + createdAt;
    assert |e.account| < |f.account|;
  }
}
