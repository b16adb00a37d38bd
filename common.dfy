/** Building blocks shared by the server and client models: optional values,
    JavaScript truthiness of optional strings, insertion-ordered sets kept as
    sequences, decimal rendering of integers as a template literal prints
    them, and substring search (String.prototype.includes). */
module Common {

  datatype Option<T> = None | Some(value: T)

  /** JavaScript truthiness of an optional string: absent and "" are falsy. */
  predicate Truthy(o: Option<string>) {
    o.Some? && o.value != ""
  }

  /** `o || fallback` for an optional string. */
  function OrElse(o: Option<string>, fallback: string): string {
    if Truthy(o) then o.value else fallback
  }

  /** No value occurs twice: what a JavaScript Set guarantees of its entries. */
  ghost predicate NoDup<T>(s: seq<T>) {
    forall i, j :: 0 <= i < j < |s| ==> s[i] != s[j]
  }

  /** Set.prototype.add on an insertion-ordered set kept as a sequence. */
  function AddNew<T(==)>(s: seq<T>, x: T): (r: seq<T>)
    ensures NoDup(s) ==> NoDup(r)
    ensures s <= r && x in r
    ensures forall k :: 0 <= k < |r| ==> r[k] in s || r[k] == x
  {
    if x in s then s else s + [x]
  }

  /** Removing the element at `j` removes one occurrence of it. */
  lemma MultisetWithout<T>(b: seq<T>, j: int)
    requires 0 <= j < |b|
    ensures multiset(b[..j] + b[j + 1..]) == multiset(b) - multiset{b[j]}
  {
    assert b == b[..j] + [b[j]] + b[j + 1..];
  }

  /** Taking one occurrence of the same value out of two permutations of
      each other leaves two permutations of each other. */
  lemma MultisetRemove<T>(a: seq<T>, i: int, b: seq<T>, j: int)
    requires multiset(a) == multiset(b)
    requires 0 <= i < |a| && 0 <= j < |b| && a[i] == b[j]
    ensures multiset(a[..i] + a[i + 1..]) == multiset(b[..j] + b[j + 1..])
  {
    MultisetWithout(a, i);
    MultisetWithout(b, j);
  }

  // ---------------------------------------------------------------------
  // Decimal rendering of integers (`${n}` for an integral number)
  // ---------------------------------------------------------------------

  predicate IsDigit(c: char) {
    '0' <= c <= '9'
  }

  predicate AllDigits(s: string) {
    forall i :: 0 <= i < |s| ==> IsDigit(s[i])
  }

  function DigitChar(d: nat): (c: char)
    requires d < 10
    ensures IsDigit(c)
  {
    ('0' as int + d) as char
  }

  function DigitValue(c: char): (d: nat)
    requires IsDigit(c)
    ensures d < 10
  {
    c as int - '0' as int
  }

  function NatToString(n: nat): (s: string)
    ensures |s| >= 1 && AllDigits(s)
    ensures s[0] == '0' ==> n == 0
    decreases n
  {
    if n < 10 then [DigitChar(n)] else NatToString(n / 10) + [DigitChar(n % 10)]
  }

  function IntToString(i: int): string {
    if i < 0 then "-" + NatToString(-i) else NatToString(i)
  }

  /** Reads a run of decimal digits back as a number. */
  function ParseNat(s: string): nat
    requires AllDigits(s)
  {
    if s == [] then 0 else ParseNat(s[..|s| - 1]) * 10 + DigitValue(s[|s| - 1])
  }

  /** Reads an optionally signed decimal integer; None for anything else. */
  function ParseInt(s: string): Option<int> {
    if |s| >= 2 && s[0] == '-' && AllDigits(s[1..]) then Some(-(ParseNat(s[1..]) as int))
    else if |s| >= 1 && AllDigits(s) then Some(ParseNat(s))
    else None
  }

  lemma {:induction false} ParseNatToString(n: nat)
    ensures ParseNat(NatToString(n)) == n
  {
    if n >= 10 {
      var s := NatToString(n);
      assert s[..|s| - 1] == NatToString(n / 10);
      ParseNatToString(n / 10);
    }
  }

  /** Decimal digits with no leading zero, other than a lone "0". */
  predicate CanonicalDigits(d: string) {
    |d| >= 1 && AllDigits(d) && (d[0] == '0' ==> |d| == 1)
  }

  /** Decimal text as JavaScript prints an integer: canonical digits,
      optionally after a minus sign, and never "-0". */
  predicate Canonical(s: string) {
    || CanonicalDigits(s)
    || (|s| >= 2 && s[0] == '-' && CanonicalDigits(s[1..]) && s[1] != '0')
  }

  lemma DigitCharValue(c: char)
    requires IsDigit(c)
    ensures DigitChar(DigitValue(c)) == c
  {
  }

  lemma {:induction false} ParseNatZero(d: string)
    requires AllDigits(d) && ParseNat(d) == 0
    ensures forall i :: 0 <= i < |d| ==> d[i] == '0'
  {
    if d != [] {
      var front := d[..|d| - 1];
      assert AllDigits(front);
      ParseNatZero(front);
      forall i | 0 <= i < |d| ensures d[i] == '0' {
        if i < |d| - 1 {
          assert d[i] == front[i];
        }
      }
    }
  }

  /** The only canonical digit text of a number is the one NatToString prints. */
  lemma {:induction false} CanonicalDigitsUnique(d: string, n: nat)
    requires CanonicalDigits(d) && ParseNat(d) == n
    ensures d == NatToString(n)
    decreases |d|
  {
    var front := d[..|d| - 1];
    assert AllDigits(front);
    DigitCharValue(d[|d| - 1]);
    if |d| == 1 {
      assert front == [];
    } else {
      assert front[0] == d[0] != '0';
      if ParseNat(front) == 0 {
        ParseNatZero(front);
      }
      CanonicalDigitsUnique(front, ParseNat(front));
      assert d == front + [d[|d| - 1]];
    }
  }

  /** IntToString prints canonical text, and canonical text that reads back
      as `i` is exactly what IntToString prints for `i`. */
  lemma CanonicalUnique(s: string, i: int)
    ensures Canonical(IntToString(i))
    ensures Canonical(s) && ParseInt(s) == Some(i) ==> s == IntToString(i)
  {
    var t := IntToString(i);
    if i < 0 {
      assert t[1..] == NatToString(-i);
    }
    if Canonical(s) && ParseInt(s) == Some(i) {
      if s[0] == '-' {
        CanonicalDigitsUnique(s[1..], -i);
        assert s == "-" + s[1..];
      } else {
        CanonicalDigitsUnique(s, i);
      }
    }
  }

  /** Rendering an integer and reading it back gives the integer. */
  lemma ParseIntToString(i: int)
    ensures ParseInt(IntToString(i)) == Some(i)
  {
    var s := IntToString(i);
    if i < 0 {
      var digits := NatToString(-i);
      assert s[0] == '-' && s[1..] == digits;
      assert AllDigits(s[1..]);
      ParseNatToString(-i);
    } else {
      assert IsDigit(s[0]);
      ParseNatToString(i);
    }
  }

  // ---------------------------------------------------------------------
  // Substring search
  // ---------------------------------------------------------------------

  ghost predicate OccursAt(s: string, sub: string, i: int) {
    0 <= i && i + |sub| <= |s| && s[i..i + |sub|] == sub
  }

  /** String.prototype.includes. */
  function Contains(s: string, sub: string): (r: bool)
    ensures r <==> exists i :: OccursAt(s, sub, i)
    decreases |s|
  {
    if sub <= s then
      assert OccursAt(s, sub, 0);
      true
    else if s == [] then
      false
    else
      var r := Contains(s[1..], sub);
      assert forall i :: OccursAt(s[1..], sub, i) <==> OccursAt(s, sub, i + 1) by {
        forall i | OccursAt(s[1..], sub, i) || OccursAt(s, sub, i + 1)
          ensures OccursAt(s[1..], sub, i) <==> OccursAt(s, sub, i + 1)
        {
          assert s[1..][i..i + |sub|] == s[i + 1..i + 1 + |sub|];
        }
      }
      assert r ==> exists i :: OccursAt(s, sub, i) by {
        if r {
          var i :| OccursAt(s[1..], sub, i);
          assert OccursAt(s, sub, i + 1);
        }
      }
      assert (exists i :: OccursAt(s, sub, i)) ==> r by {
        if exists i :: OccursAt(s, sub, i) {
          var i :| OccursAt(s, sub, i);
          assert i > 0;
          assert OccursAt(s[1..], sub, i - 1);
        }
      }
      r
  }

  /** Containment is transitive: a string containing `mid` contains every
      substring of `mid`. */
  lemma ContainsTransitive(s: string, mid: string, sub: string)
    requires Contains(s, mid) && Contains(mid, sub)
    ensures Contains(s, sub)
  {
    var i :| OccursAt(s, mid, i);
    var j :| OccursAt(mid, sub, j);
    forall k | 0 <= k < |sub|
      ensures s[i + j + k] == sub[k]
    {
      assert mid[j..j + |sub|][k] == sub[k];
      assert s[i..i + |mid|][j + k] == mid[j + k];
    }
    assert s[i + j..i + j + |sub|] == sub;
    assert OccursAt(s, sub, i + j);
  }
}
