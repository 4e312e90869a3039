/** The few PHP value semantics the status report relies on: null-or-string
    cells, truthiness, `isset`, `strpos`, `substr`, `strtoupper`, the coercion
    of a string to an array key, and assignment into an ordered array. */
module Php {

  datatype Option<+T> = None | Some(value: T)

  /** A scalar as the report sees it: PHP `null` or a string. */
  datatype Cell = Null | Text(s: string)

  /** PHP truthiness of a cell: `null`, `""` and `"0"` are false. */
  predicate Truthy(c: Cell) {
    c.Text? && c.s != "" && c.s != "0"
  }

  /** PHP `empty()` of a string. */
  predicate Empty(s: string) {
    s == "" || s == "0"
  }

  /** A fetched database row or a queue record: column name to cell. */
  type Row = map<string, Cell>

  /** `isset($row[$key])`: the key is present and its value is not null. */
  predicate IsSet(row: Row, key: string) {
    key in row && row[key] != Null
  }

  /** `$row[$key]`: a missing key reads as null (PHP also raises a notice). */
  function Get(row: Row, key: string): Cell {
    if key in row then row[key] else Null
  }

  /** `strpos($s, $c)` for a one-character needle: the first index of `c`,
      or `None` where PHP returns `false`. */
  function StrPos(s: string, c: char): (r: Option<nat>)
    ensures r.None? <==> c !in s
    ensures r.Some? ==> r.value < |s| && s[r.value] == c && c !in s[..r.value]
  {
    if |s| == 0 then None
    else if s[0] == c then Some(0)
    else match StrPos(s[1..], c)
      case None => None
      case Some(p) =>
        assert s[1..][..p] == s[1..p + 1];
        assert s[..p + 1] == [s[0]] + s[1..p + 1];
        Some(p + 1)
  }

  /** `substr($s, $from)` for a non-negative start: the empty string once the
      start lies past the end (the PHP 8 behaviour). */
  function SubstrFrom(s: string, from: nat): string {
    if from <= |s| then s[from..] else ""
  }

  /** `strtoupper($c) == $c` for one character: `strtoupper` maps only
      'a'..'z', so the test holds for every other character. */
  predicate UpperUnchanged(c: char) {
    !('a' <= c <= 'z')
  }

  // ---------------------------------------------------------------------
  // Array keys: a string that is the canonical decimal form of an integer
  // in PHP's 64-bit range is stored as that integer; any other string, and
  // `null` (as ""), is a string key.

  datatype Key = IntKey(i: int) | StrKey(s: string)

  const PhpIntMax: int := 0x7fff_ffff_ffff_ffff
  const PhpIntMin: int := -0x8000_0000_0000_0000

  predicate IsDigit(c: char) {
    '0' <= c <= '9'
  }

  predicate IsDigits(s: string) {
    |s| > 0 && forall i :: 0 <= i < |s| ==> IsDigit(s[i])
  }

  function DigitChar(d: nat): (c: char)
    requires d < 10
    ensures IsDigit(c)
  {
    (('0' as int) + d) as char
  }

  function DigitValue(c: char): nat
    requires IsDigit(c)
  {
    c as int - '0' as int
  }

  /** Canonical decimal form of a natural number: no leading zeros. */
  function ShowNat(n: nat): (s: string)
    ensures IsDigits(s)
  {
    if n < 10 then [DigitChar(n)] else ShowNat(n / 10) + [DigitChar(n % 10)]
  }

  /** Canonical decimal form of an integer, `-` for negatives. */
  function ShowInt(n: int): string {
    if n < 0 then "-" + ShowNat(-n) else ShowNat(n)
  }

  /** The value of a non-empty digit string. */
  function DigitsValue(s: string): nat
    requires forall i :: 0 <= i < |s| ==> IsDigit(s[i])
  {
    if |s| == 0 then 0
    else DigitsValue(s[..|s| - 1]) * 10 + DigitValue(s[|s| - 1])
  }

  /** Reads an optional `-` followed by digits; `None` for anything else. */
  function ParseInt(s: string): Option<int> {
    if IsDigits(s) then Some(DigitsValue(s))
    else if |s| > 1 && s[0] == '-' && IsDigits(s[1..]) then Some(-(DigitsValue(s[1..]) as int))
    else None
  }

  /** The array key that a null or string offset becomes. */
  function KeyOf(c: Cell): (k: Key)
    ensures k.IntKey? ==> c == Text(ShowInt(k.i)) && PhpIntMin <= k.i <= PhpIntMax
    ensures k.StrKey? ==> k.s == (if c.Text? then c.s else "")
  {
    match c
    case Null => StrKey("")
    case Text(s) =>
      match ParseInt(s)
      case Some(n) => if ShowInt(n) == s && PhpIntMin <= n <= PhpIntMax then IntKey(n) else StrKey(s)
      case None => StrKey(s)
  }

  /** Reading back the canonical decimal form of `n` gives `n`. */
  lemma {:induction false} ShowNatRoundTrip(n: nat)
    ensures DigitsValue(ShowNat(n)) == n
  {
    if n >= 10 {
      ShowNatRoundTrip(n / 10);
      var s := ShowNat(n);
      assert s[..|s| - 1] == ShowNat(n / 10);
    }
  }

  /** Every in-range integer, written canonically, becomes an integer key:
      together with `KeyOf`'s contract, `KeyOf(c) == IntKey(n)` exactly when
      `c` is the text `ShowInt(n)`. */
  lemma KeyOfCanonical(n: int)
    requires PhpIntMin <= n <= PhpIntMax
    ensures KeyOf(Text(ShowInt(n))) == IntKey(n)
  {
    if n < 0 {
      ShowNatRoundTrip(-n);
      assert ShowInt(n)[1..] == ShowNat(-n);
      assert !IsDigit(ShowInt(n)[0]);
    } else {
      ShowNatRoundTrip(n);
    }
  }

  // ---------------------------------------------------------------------
  // Ordered arrays, as `$report[$key] = ...` builds them.

  function KeysOf<K, V>(a: seq<(K, V)>): set<K> {
    set i | 0 <= i < |a| :: a[i].0
  }

  ghost predicate DistinctKeys<K, V>(a: seq<(K, V)>) {
    forall i, j :: 0 <= i < j < |a| ==> a[i].0 != a[j].0
  }

  /** `$a[$k] = $v`: an existing key keeps its position and takes the new
      value; a new key is appended at the end. */
  function Assign<K(==), V>(a: seq<(K, V)>, k: K, v: V): (r: seq<(K, V)>)
    ensures k !in KeysOf(a) ==> r == a + [(k, v)]
    ensures k in KeysOf(a) ==> |r| == |a|
    ensures forall i :: 0 <= i < |a| ==> r[i] == (if a[i].0 == k then (k, v) else a[i])
  {
    if k in KeysOf(a) then
      seq(|a|, i requires 0 <= i < |a| => if a[i].0 == k then (k, v) else a[i])
    else
      a + [(k, v)]
  }

  /** `$a[$k] = $v` adds the key `k` and no other. */
  lemma AssignKeys<K, V>(a: seq<(K, V)>, k: K, v: V)
    ensures KeysOf(Assign(a, k, v)) == KeysOf(a) + {k}
  {
    var r := Assign(a, k, v);
    forall x | x in KeysOf(r) ensures x in KeysOf(a) + {k} {
      var i :| 0 <= i < |r| && r[i].0 == x;
      if i < |a| && a[i].0 != k {
        assert a[i].0 == x;
      }
    }
    forall x | x in KeysOf(a) + {k} ensures x in KeysOf(r) {
      if x == k {
        if k in KeysOf(a) {
          var i :| 0 <= i < |a| && a[i].0 == k;
          assert r[i].0 == x;
        } else {
          assert r[|a|].0 == x;
        }
      } else {
        var i :| 0 <= i < |a| && a[i].0 == x;
        assert r[i].0 == x;
      }
    }
  }

  /** `$a[$k] = $v` never makes a key appear twice. */
  lemma AssignDistinct<K, V>(a: seq<(K, V)>, k: K, v: V)
    requires DistinctKeys(a)
    ensures DistinctKeys(Assign(a, k, v))
  {
    var r := Assign(a, k, v);
    if k !in KeysOf(a) {
      forall i | 0 <= i < |a| ensures a[i].0 != k {
        assert a[i].0 in KeysOf(a);
      }
    }
  }

  /** The pair `e` is an element of the ordered array `a`. */
  ghost predicate HasEntry<K, V>(a: seq<(K, V)>, e: (K, V)) {
    exists p :: 0 <= p < |a| && a[p] == e
  }

  /** After `$a[$k] = $v` the pair `(k, v)` is in the array. */
  lemma AssignHolds<K, V>(a: seq<(K, V)>, k: K, v: V)
    ensures HasEntry(Assign(a, k, v), (k, v))
  {
    var r := Assign(a, k, v);
    if k in KeysOf(a) {
      var p :| 0 <= p < |a| && a[p].0 == k;
      assert r[p] == (k, v);
    } else {
      assert r[|a|] == (k, v);
    }
  }

  /** `$a[$k] = $v` leaves every pair under another key in place. */
  lemma AssignKeeps<K, V>(a: seq<(K, V)>, k: K, v: V, e: (K, V))
    requires HasEntry(a, e) && e.0 != k
    ensures HasEntry(Assign(a, k, v), e)
  {
    var p :| 0 <= p < |a| && a[p] == e;
    assert Assign(a, k, v)[p] == e;
  }

  /** A conditional `$a[$k] = $v` leaves every pair under another key in
      place. */
  lemma AssignKeepsIf<K, V>(a: seq<(K, V)>, r: seq<(K, V)>, isAssigned: bool, k: K, v: V, e: (K, V))
    requires r == if isAssigned then Assign(a, k, v) else a
    requires HasEntry(a, e) && (isAssigned ==> e.0 != k)
    ensures HasEntry(r, e)
  {
    if isAssigned {
      AssignKeeps(a, k, v, e);
    }
  }
}
