/** Cell values and the bits of Python text handling the core relies on:
    `str(x)`, ASCII `lower()`, the `in` substring test, `isdigit()` and `sep.join`. */
module Values {

  /** A column value as SQLite hands it to Python. `VOpaque` stands for a value the
      model does not interpret (a float, a datetime, a blob), carried by its `str()` text. */
  datatype Value = VNone | VInt(i: int) | VStr(s: string) | VOpaque(shown: string)

  /** Python truthiness of a cell: None, 0 and '' are falsy. */
  predicate Truthy(v: Value)
  {
    match v
    case VNone => false
    case VInt(i) => i != 0
    case VStr(s) => s != ""
    case VOpaque(_) => true
  }

  function DigitChar(d: nat): (c: char)
    requires d < 10
    ensures '0' <= c <= '9'
  {
    "0123456789"[d]
  }

  /** The value at position `i`, or None past the end: how a record reads a short row. */
  function Slot(i: nat, args: seq<Value>): (v: Value)
    ensures i >= |args| ==> v == VNone
    ensures i < |args| ==> v == args[i]
  {
    if i < |args| then args[i] else VNone
  }

  predicate IsDigit(c: char) { '0' <= c <= '9' }

  /** Python `s.isdigit()` restricted to ASCII: non-empty and digits only. */
  predicate IsDigitString(s: string)
  {
    |s| > 0 && forall k :: 0 <= k < |s| ==> IsDigit(s[k])
  }

  /** Decimal rendering of a natural number, as `str(n)` prints it. */
  function NatToString(n: nat): (r: string)
    ensures IsDigitString(r)
    ensures n < 10 <==> |r| == 1
    decreases n
  {
    if n < 10 then [DigitChar(n)]
    else
      var r := NatToString(n / 10) + [DigitChar(n % 10)];
      assert forall k :: 0 <= k < |r| - 1 ==> r[k] == NatToString(n / 10)[k];
      r
  }

  function IntToString(i: int): string
  {
    if i < 0 then "-" + NatToString(-i) else NatToString(i)
  }

  /** Python `str(v)`. */
  function Str(v: Value): string
  {
    match v
    case VNone => "None"
    case VInt(i) => IntToString(i)
    case VStr(s) => s
    case VOpaque(t) => t
  }

  function LowerChar(c: char): char
  {
    if 'A' <= c <= 'Z' then (c as int + 32) as char else c
  }

  /** `s.lower()`, ASCII letters only. */
  function Lower(s: string): (r: string)
    ensures |r| == |s|
    ensures forall k :: 0 <= k < |s| ==> r[k] == LowerChar(s[k])
  {
    if s == [] then [] else [LowerChar(s[0])] + Lower(s[1..])
  }

  predicate IsPrefix(p: string, s: string)
  {
    |p| <= |s| && s[..|p|] == p
  }

  /** Python `sub in s`: `sub` occurs in `s` at some position. */
  predicate Contains(sub: string, s: string)
    decreases |s|
  {
    IsPrefix(sub, s) || (|s| > 0 && Contains(sub, s[1..]))
  }

  /** `sep.join(parts)`. */
  function Join(parts: seq<string>, sep: string): (r: string)
    ensures parts != [] ==> IsPrefix(parts[0], r)
    ensures |parts| == 1 ==> r == parts[0]
  {
    if parts == [] then ""
    else if |parts| == 1 then parts[0]
    else parts[0] + sep + Join(parts[1..], sep)
  }

  predicate IsSuffix(p: string, s: string)
  {
    |p| <= |s| && s[|s| - |p|..] == p
  }

  /** With two or more parts, the joined text opens with the first part and a
      separator and closes with a separator and the last part. */
  lemma {:induction false} JoinEnds(parts: seq<string>, sep: string)
    requires |parts| >= 2
    ensures IsPrefix(parts[0] + sep, Join(parts, sep))
    ensures IsSuffix(sep + parts[|parts| - 1], Join(parts, sep))
    ensures |Join(parts, sep)| >= |parts[0]| + |sep| + |parts[|parts| - 1]|
    decreases |parts|
  {
    var r := Join(parts, sep);
    assert r == parts[0] + sep + Join(parts[1..], sep);
    if |parts| > 2 {
      JoinEnds(parts[1..], sep);
    }
  }

  /** Joining two parts puts the separator between them. */
  lemma JoinTwo(a: string, b: string, sep: string)
    ensures Join([a, b], sep) == a + sep + b
  {
    assert [a, b][1..] == [b];
  }

  /** Joining three parts spells them out with the separator between them. */
  lemma JoinThree(a: string, b: string, c: string, sep: string)
    ensures Join([a, b, c], sep) == a + sep + b + sep + c
  {
    assert [a, b, c][1..] == [b, c];
    assert [b, c][1..] == [c];
  }

  /** Joining four parts spells them out with the separator between them. */
  lemma JoinFour(a: string, b: string, c: string, d: string, sep: string)
    ensures Join([a, b, c, d], sep) == a + sep + b + sep + c + sep + d
  {
    assert [a, b, c, d][1..] == [b, c, d];
    JoinThree(b, c, d, sep);
  }

  /** Joining five parts spells them out with the separator between them. */
  lemma JoinFive(a: string, b: string, c: string, d: string, e: string, sep: string)
    ensures Join([a, b, c, d, e], sep) == a + sep + b + sep + c + sep + d + sep + e
  {
    assert [a, b, c, d, e][1..] == [b, c, d, e];
    assert [b, c, d, e][1..] == [c, d, e];
    JoinThree(c, d, e, sep);
  }

  /** `sub` sits in `s` at position `k`. */
  predicate OccursAt(sub: string, s: string, k: int)
  {
    0 <= k && k + |sub| <= |s| && s[k..k + |sub|] == sub
  }

  /** `Contains` means what it says: `sub` occurs in `s` at some position. */
  lemma {:induction false} ContainsAt(sub: string, s: string)
    ensures Contains(sub, s) <==> exists k :: OccursAt(sub, s, k)
    decreases |s|
  {
    if IsPrefix(sub, s) {
      assert OccursAt(sub, s, 0);
    }
    if |s| > 0 {
      ContainsAt(sub, s[1..]);
      if Contains(sub, s[1..]) {
        var k :| OccursAt(sub, s[1..], k);
        assert s[k + 1..k + 1 + |sub|] == s[1..][k..k + |sub|];
        assert OccursAt(sub, s, k + 1);
      }
      if exists k :: OccursAt(sub, s, k) {
        var k :| OccursAt(sub, s, k);
        if k > 0 {
          assert s[1..][k - 1..k - 1 + |sub|] == s[k..k + |sub|];
          assert OccursAt(sub, s[1..], k - 1);
        }
      }
    } else if exists k :: OccursAt(sub, s, k) {
      var k :| OccursAt(sub, s, k);
      assert IsPrefix(sub, s);
    }
  }

  /** Every string contains itself and the empty string. */
  lemma ContainsSelfAndEmpty(s: string)
    ensures Contains(s, s) && Contains("", s)
  {
  }

  /** Lowering twice is lowering once. */
  lemma LowerIdempotent(s: string)
    ensures Lower(Lower(s)) == Lower(s)
  {
  }

  /** The rendering of a natural number reads back as that number. */
  function DigitsValue(s: string): (n: nat)
    requires forall k :: 0 <= k < |s| ==> IsDigit(s[k])
  {
    if s == [] then 0
    else
      assert IsDigit(s[|s| - 1]);
      10 * DigitsValue(s[..|s| - 1]) + (s[|s| - 1] as int - '0' as int)
  }

  lemma {:induction false} NatToStringRoundTrip(n: nat)
    ensures DigitsValue(NatToString(n)) == n
    decreases n
  {
    if n >= 10 {
      var r := NatToString(n);
      NatToStringRoundTrip(n / 10);
      assert r[..|r| - 1] == NatToString(n / 10);
    }
  }
}
