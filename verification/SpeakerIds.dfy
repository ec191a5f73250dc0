/** Speaker identifiers: `spk_` and a number padded to three digits, the number read back from an
    identifier, and the string order profiles are listed in. */
module SpeakerIds {
  import opened Wrappers

  function Digit(d: nat): char
    requires d < 10
  {
    '0' + d as char
  }

  predicate IsDigit(c: char) { '0' <= c <= '9' }

  function Decimal(n: nat): (s: string)
    ensures s != [] && forall i :: 0 <= i < |s| ==> IsDigit(s[i])
  {
    if n < 10 then [Digit(n)] else Decimal(n / 10) + [Digit(n % 10)]
  }

  /** `f"{n:03d}"` */
  function Padded(n: nat): (s: string)
    ensures s != [] && forall i :: 0 <= i < |s| ==> IsDigit(s[i])
  {
    if n < 10 then "00" + Decimal(n) else if n < 100 then "0" + Decimal(n) else Decimal(n)
  }

  function SpeakerId(n: nat): string { "spk_" + Padded(n) }

  /** `int(s)` of a string of digits. */
  function Number(s: string): nat
    requires forall i :: 0 <= i < |s| ==> IsDigit(s[i])
  {
    if s == [] then 0
    else
      assert IsDigit(s[|s| - 1]);
      10 * Number(s[..|s| - 1]) + (s[|s| - 1] as int - '0' as int)
  }

  lemma {:induction false} NumberOfDecimal(n: nat)
    ensures Number(Decimal(n)) == n
  {
    var s := Decimal(n);
    if n >= 10 {
      NumberOfDecimal(n / 10);
      assert s[..|s| - 1] == Decimal(n / 10);
    } else {
      assert s[..0] == [];
    }
  }

  lemma {:induction false} LeadingZero(s: string)
    requires forall i :: 0 <= i < |s| ==> IsDigit(s[i])
    ensures Number("0" + s) == Number(s)
  {
    if s == [] {
      assert "0" + s == "0" && "0"[..0] == [];
    } else {
      assert ("0" + s)[..|s|] == "0" + s[..|s| - 1];
      LeadingZero(s[..|s| - 1]);
    }
  }

  lemma NumberOfPadded(n: nat)
    ensures Number(Padded(n)) == n
  {
    NumberOfDecimal(n);
    LeadingZero(Decimal(n));
    if n < 10 {
      LeadingZero("0" + Decimal(n));
      assert "00" + Decimal(n) == "0" + ("0" + Decimal(n));
    }
  }

  /** `id.split("_")[-1]` */
  function LastPart(id: string): string {
    if id == [] then [] else if id[|id| - 1] == '_' then [] else LastPart(id[..|id| - 1]) + [id[|id| - 1]]
  }

  /** The number at the end of an identifier, if its last part is all digits. */
  function Suffix(id: string): Option<nat> {
    var part := LastPart(id);
    if part != [] && forall i :: 0 <= i < |part| ==> IsDigit(part[i]) then Some(Number(part)) else None
  }

  lemma {:induction false} LastPartOfDigits(prefix: string, s: string)
    requires forall i :: 0 <= i < |s| ==> s[i] != '_'
    ensures LastPart(prefix + "_" + s) == s
  {
    var id := prefix + "_" + s;
    if s == [] {
      assert id[|id| - 1] == '_';
    } else {
      assert id[..|id| - 1] == prefix + "_" + s[..|s| - 1];
      LastPartOfDigits(prefix, s[..|s| - 1]);
    }
  }

  /** An identifier's number is read back from it, so identifiers of different numbers differ. */
  lemma SuffixOfSpeakerId(n: nat)
    ensures Suffix(SpeakerId(n)) == Some(n)
  {
    assert "spk" + "_" == "spk_";
    LastPartOfDigits("spk", Padded(n));
    NumberOfPadded(n);
  }

  // ---------------------------------------------------------------- string order

  predicate StrLe(a: string, b: string) {
    a == [] || (b != [] && (a[0] < b[0] || (a[0] == b[0] && StrLe(a[1..], b[1..]))))
  }

  lemma {:induction false} StrLeTotal(a: string, b: string)
    ensures StrLe(a, b) || StrLe(b, a)
    ensures StrLe(a, b) && StrLe(b, a) ==> a == b
  {
    if a != [] && b != [] {
      StrLeTotal(a[1..], b[1..]);
      assert a == [a[0]] + a[1..] && b == [b[0]] + b[1..];
    }
  }

  lemma {:induction false} StrLeTransitive(a: string, b: string, c: string)
    requires StrLe(a, b) && StrLe(b, c)
    ensures StrLe(a, c)
  {
    if a != [] && a[0] == b[0] && b[0] == c[0] { StrLeTransitive(a[1..], b[1..], c[1..]); }
  }

  /** String order: equal, a prefix, or smaller at the first difference. */
  lemma {:induction false} StrLeMeans(a: string, b: string)
    ensures StrLe(a, b)
       <==> a <= b || exists i: nat :: i < |a| && i < |b| && a[..i] == b[..i] && a[i] < b[i]
    decreases |a|
  {
    if a != [] && b != [] && a[0] == b[0] {
      StrLeMeans(a[1..], b[1..]);
      if i: nat :| i < |a| && i < |b| && a[..i] == b[..i] && a[i] < b[i] {
        assert i > 0;
        assert a[1..][..i - 1] == a[..i][1..] && b[1..][..i - 1] == b[..i][1..];
      }
      if i: nat :| i < |a| - 1 && i < |b| - 1 && a[1..][..i] == b[1..][..i] && a[1..][i] < b[1..][i] {
        assert a[..i + 1] == [a[0]] + a[1..][..i] && b[..i + 1] == [b[0]] + b[1..][..i];
        assert a[i + 1] < b[i + 1];
      }
      assert a == [a[0]] + a[1..] && b == [b[0]] + b[1..];
    } else if a != [] && b != [] {
      assert a[..0] == b[..0];
    }
  }

  ghost predicate IsFirst(ids: set<string>, first: string) {
    first in ids && forall x :: x in ids ==> StrLe(first, x)
  }

  lemma {:induction false} FirstExists(ids: set<string>) returns (first: string)
    requires ids != {}
    ensures IsFirst(ids, first)
    decreases |ids|
  {
    var x :| x in ids;
    var rest := ids - {x};
    StrLeTotal(x, x);
    if rest == {} {
      assert ids == {x};
      first := x;
    } else {
      first := FirstExists(rest);
      StrLeTotal(first, x);
      if !StrLe(first, x) {
        forall y | y in ids ensures StrLe(x, y) { if y != x { StrLeTransitive(x, first, y); } }
        first := x;
      }
    }
  }

  lemma FirstUnique(ids: set<string>, a: string, b: string)
    requires IsFirst(ids, a) && IsFirst(ids, b)
    ensures a == b
  {
    StrLeTotal(a, b);
  }

  ghost function First(ids: set<string>): (first: string)
    requires ids != {}
    ensures IsFirst(ids, first)
  {
    assert exists f :: IsFirst(ids, f) by { var f := FirstExists(ids); assert IsFirst(ids, f); }
    var f :| IsFirst(ids, f);
    f
  }

  /** The identifiers in string order. */
  ghost function InOrder(ids: set<string>): (r: seq<string>)
    ensures forall x :: x in r <==> x in ids
    decreases |ids|
  {
    if ids == {} then []
    else
      var f := First(ids);
      [f] + InOrder(ids - {f})
  }

  ghost predicate Ascending(r: seq<string>) {
    forall i, j :: 0 <= i < j < |r| ==> StrLe(r[i], r[j]) && r[i] != r[j]
  }

  lemma PrependAscending(f: string, r: seq<string>)
    requires Ascending(r) && forall x :: x in r ==> StrLe(f, x) && f != x
    ensures Ascending([f] + r)
  {
    var all := [f] + r;
    forall i, j | 0 <= i < j < |all| ensures StrLe(all[i], all[j]) && all[i] != all[j] {
      assert all[j] == r[j - 1] && r[j - 1] in r;
      if i > 0 { assert all[i] == r[i - 1]; }
    }
  }

  lemma {:induction false} InOrderSorts(ids: set<string>)
    ensures |InOrder(ids)| == |ids| && Ascending(InOrder(ids))
    decreases |ids|
  {
    if ids != {} {
      var f := First(ids);
      InOrderSorts(ids - {f});
      PrependAscending(f, InOrder(ids - {f}));
    }
  }

  /** Sorting a set of identifiers. */
  method Sort(ids: set<string>) returns (r: seq<string>)
    ensures r == InOrder(ids)
  {
    var rest := ids;
    r := [];
    while rest != {}
      invariant InOrder(ids) == r + InOrder(rest)
      decreases rest
    {
      var f := FindFirst(rest);
      FirstUnique(rest, f, First(rest));
      r := r + [f];
      rest := rest - {f};
    }
  }

  method FindFirst(ids: set<string>) returns (first: string)
    requires ids != {}
    ensures IsFirst(ids, first)
  {
    first :| first in ids;
    var todo := ids;
    while todo != {}
      invariant first in ids && todo <= ids
      invariant forall x :: x in ids && x !in todo ==> StrLe(first, x)
      decreases todo
    {
      var x :| x in todo;
      todo := todo - {x};
      StrLeTotal(x, x);
      StrLeTotal(first, x);
      if !StrLe(first, x) {
        forall y | y in ids && y !in todo ensures StrLe(x, y) { if y != x { StrLeTransitive(x, first, y); } }
        first := x;
      }
    }
  }
}
