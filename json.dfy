/** The JSON values a checksum payload is made of, and the canonical text
    `json.dumps(payload, sort_keys=True, default=str)` writes for them
    (app/services/checksum_service.py). */
module Json {

  /** Characters that may occur in a number literal. */
  predicate IsNumberChar(c: char) {
    ('0' <= c <= '9') || c == '.' || c == 'e' || c == '+' || c == '-'
  }

  predicate IsDigit(c: char) {
    '0' <= c <= '9'
  }

  predicate AllDigits(s: string) {
    forall i | 0 <= i < |s| :: IsDigit(s[i])
  }

  /** The text Python's float repr gives a finite float: number characters
      with a decimal point or an exponent ("0.9", "1e+20", "-0.0"). */
  predicate IsFloatRepr(s: string) {
    && |s| > 0
    && (forall i | 0 <= i < |s| :: IsNumberChar(s[i]))
    && ('.' in s || 'e' in s)
  }

  type FloatRepr = s: string | IsFloatRepr(s) witness "0.0"

  /** A Python value as json.dumps sees it. A dict keeps its insertion order
      (`fields`); `JOther` is a value json cannot encode by itself (a date, a
      Decimal), carried with the text `str()` gives for it. */
  datatype Json =
    | JNull
    | JBool(b: bool)
    | JInt(i: int)
    | JFloat(repr: FloatRepr)
    | JStr(s: string)
    | JArr(items: seq<Json>)
    | JObj(fields: seq<Field>)
    | JOther(text: string)

  datatype Field = Field(key: string, value: Json)

  /** Every dict in the value has pairwise distinct keys, as a Python dict does. */
  predicate UniqueKeys(fields: seq<Field>) {
    forall i, j | 0 <= i < j < |fields| :: fields[i].key != fields[j].key
  }

  /** The value holds nothing that still needs `default=str`. */
  predicate NoOther(j: Json)
    decreases j
  {
    match j
    case JOther(_) => false
    case JArr(items) => forall x | x in items :: NoOther(x)
    case JObj(fields) => forall f | f in fields :: NoOther(f.value)
    case _ => true
  }

  // ---------------------------------------------------------------------
  // Number and string text
  // ---------------------------------------------------------------------

  function DigitChar(d: nat): (c: char)
    requires d < 10
    ensures IsDigit(c)
  {
    "0123456789"[d]
  }

  /** Decimal text of a natural number, without leading zeros. */
  function NatText(n: nat): (r: string)
    ensures |r| > 0 && AllDigits(r)
    decreases n
  {
    if n < 10 then [DigitChar(n)] else NatText(n / 10) + [DigitChar(n % 10)]
  }

  /** The text `repr(int)` gives: an optional minus sign, then decimal digits. */
  function IntText(i: int): (r: string)
    ensures |r| > 0 && forall k | 0 <= k < |r| :: IsNumberChar(r[k])
  {
    if i < 0 then "-" + NatText(-i) else NatText(i)
  }

  function EscapeChar(c: char): string {
    if c == '"' then ['\\', '"'] else if c == '\\' then ['\\', '\\'] else [c]
  }

  /** String contents with the quote and the backslash escaped. */
  function Escape(s: string): string {
    if s == [] then [] else EscapeChar(s[0]) + Escape(s[1..])
  }

  /** A JSON string literal. */
  function Quote(s: string): string {
    "\"" + Escape(s) + "\""
  }

  // ---------------------------------------------------------------------
  // Key order
  // ---------------------------------------------------------------------

  /** Python's order on str: code points compared left to right, a proper
      prefix first. */
  predicate KeyLess(a: string, b: string)
    decreases |a|
  {
    if a == [] then b != []
    else if b == [] then false
    else if a[0] != b[0] then a[0] < b[0]
    else KeyLess(a[1..], b[1..])
  }

  lemma {:induction false} KeyLessIrreflexive(a: string)
    ensures !KeyLess(a, a)
    decreases |a|
  {
    if a != [] {
      KeyLessIrreflexive(a[1..]);
    }
  }

  lemma {:induction false} KeyLessTransitive(a: string, b: string, c: string)
    requires KeyLess(a, b) && KeyLess(b, c)
    ensures KeyLess(a, c)
    decreases |a|
  {
    if a != [] && b != [] && c != [] && a[0] == b[0] && b[0] == c[0] {
      KeyLessTransitive(a[1..], b[1..], c[1..]);
    }
  }

  lemma {:induction false} KeyLessTotal(a: string, b: string)
    ensures a == b || KeyLess(a, b) || KeyLess(b, a)
    decreases |a|
  {
    if a != [] && b != [] && a[0] == b[0] {
      KeyLessTotal(a[1..], b[1..]);
      if a[1..] == b[1..] {
        assert a == [a[0]] + a[1..] && b == [b[0]] + b[1..];
      }
    }
  }

  lemma KeyLessAsymmetric(a: string, b: string)
    requires KeyLess(a, b)
    ensures !KeyLess(b, a)
  {
    if KeyLess(b, a) {
      KeyLessTransitive(a, b, a);
      KeyLessIrreflexive(a);
    }
  }

  /** "Not after" is transitive too, because the order is total. */
  lemma NotLessTransitive(a: string, b: string, c: string)
    requires !KeyLess(a, b) && !KeyLess(b, c)
    ensures !KeyLess(a, c)
  {
    if KeyLess(a, c) {
      KeyLessTotal(a, b);
      KeyLessTotal(b, c);
      if a == b {
      } else if b == c {
      } else {
        KeyLessTransitive(c, b, a);
        KeyLessAsymmetric(c, a);
      }
    }
  }

  /** Fields in strictly increasing key order. */
  predicate KeysAscending(s: seq<Field>) {
    forall i, j | 0 <= i < j < |s| :: KeyLess(s[i].key, s[j].key)
  }

  /** Fields in non-decreasing key order. */
  predicate KeysNonDescending(s: seq<Field>) {
    forall i, j | 0 <= i < j < |s| :: !KeyLess(s[j].key, s[i].key)
  }

  function InsertField(f: Field, s: seq<Field>): (r: seq<Field>)
    ensures multiset(r) == multiset(s) + multiset{f}
  {
    assert s != [] ==> s == [s[0]] + s[1..];
    if s == [] then [f]
    else if KeyLess(s[0].key, f.key) then [s[0]] + InsertField(f, s[1..])
    else [f] + s
  }

  /** The item order `sort_keys=True` writes a dict in. */
  function SortFields(s: seq<Field>): (r: seq<Field>)
    ensures multiset(r) == multiset(s)
    ensures forall f | f in r :: f in multiset(s)
  {
    assert s != [] ==> s == [s[0]] + s[1..];
    if s == [] then [] else InsertField(s[0], SortFields(s[1..]))
  }

  lemma {:induction false} InsertNonDescending(f: Field, s: seq<Field>)
    requires KeysNonDescending(s)
    ensures KeysNonDescending(InsertField(f, s))
    decreases |s|
  {
    if s != [] {
      var r := InsertField(f, s);
      if KeyLess(s[0].key, f.key) {
        InsertNonDescending(f, s[1..]);
        KeyLessAsymmetric(s[0].key, f.key);
        forall j | 1 <= j < |r| ensures !KeyLess(r[j].key, r[0].key) {
          assert r[j] in multiset(s[1..]) + multiset{f};
          if r[j] != f {
            var k :| 0 <= k < |s[1..]| && s[1..][k] == r[j];
            assert s[k + 1] == r[j];
          }
        }
      } else {
        forall j | 1 <= j < |r| ensures !KeyLess(r[j].key, r[0].key) {
          assert r[j] == s[j - 1];
          if j > 1 {
            NotLessTransitive(s[j - 1].key, s[0].key, f.key);
          }
        }
      }
    }
  }

  lemma {:induction false} SortNonDescending(s: seq<Field>)
    ensures KeysNonDescending(SortFields(s))
    decreases |s|
  {
    if s != [] {
      SortNonDescending(s[1..]);
      InsertNonDescending(s[0], SortFields(s[1..]));
    }
  }

  lemma {:induction false} InsertAscending(f: Field, s: seq<Field>)
    requires KeysAscending(s)
    requires forall g | g in s :: g.key != f.key
    ensures KeysAscending(InsertField(f, s))
    decreases |s|
  {
    if s != [] {
      var r := InsertField(f, s);
      if KeyLess(s[0].key, f.key) {
        InsertAscending(f, s[1..]);
        forall j | 1 <= j < |r| ensures KeyLess(r[0].key, r[j].key) {
          assert r[j] in multiset(s[1..]) + multiset{f};
          if r[j] != f {
            var k :| 0 <= k < |s[1..]| && s[1..][k] == r[j];
            assert s[k + 1] == r[j];
          }
        }
      } else {
        KeyLessTotal(s[0].key, f.key);
        forall j | 1 <= j < |r| ensures KeyLess(r[0].key, r[j].key) {
          assert r[j] == s[j - 1];
          if j > 1 {
            KeyLessTransitive(f.key, s[0].key, s[j - 1].key);
          }
        }
      }
    }
  }

  /** With distinct keys the sorted dict is in strictly increasing key order. */
  lemma {:induction false} SortAscending(s: seq<Field>)
    requires UniqueKeys(s)
    ensures KeysAscending(SortFields(s))
    decreases |s|
  {
    if s != [] {
      SortAscending(s[1..]);
      forall g | g in SortFields(s[1..]) ensures g.key != s[0].key {
        assert g in multiset(s[1..]);
        var k :| 0 <= k < |s[1..]| && s[1..][k] == g;
        assert s[k + 1] == g;
      }
      InsertAscending(s[0], SortFields(s[1..]));
    }
  }

  /** A strictly ascending and a non-descending arrangement of the same
      fields start with the same field. */
  lemma SortedArrangementsSameHead(a: seq<Field>, b: seq<Field>)
    requires KeysAscending(a) && KeysNonDescending(b)
    requires multiset(a) == multiset(b)
    requires a != [] && b != []
    ensures a[0] == b[0]
  {
    assert a[0] in multiset(b);
    var k :| 0 <= k < |b| && b[k] == a[0];
    assert b[0] in multiset(a);
    var m :| 0 <= m < |a| && a[m] == b[0];
    if m > 0 && k == 0 {
      KeyLessIrreflexive(a[0].key);
    }
  }

  /** A strictly ascending and a non-descending arrangement of the same
      fields are the same sequence. */
  lemma {:induction false} SortedArrangementUnique(a: seq<Field>, b: seq<Field>)
    requires KeysAscending(a) && KeysNonDescending(b)
    requires multiset(a) == multiset(b)
    ensures a == b
    decreases |a|
  {
    assert |a| == |multiset(a)| == |multiset(b)| == |b|;
    if a != [] {
      SortedArrangementsSameHead(a, b);
      SortedTails(a, b);
      SortedArrangementUnique(a[1..], b[1..]);
      assert a == [a[0]] + a[1..] && b == [b[0]] + b[1..];
    }
  }

  lemma SortedTails(a: seq<Field>, b: seq<Field>)
    requires KeysAscending(a) && KeysNonDescending(b)
    requires multiset(a) == multiset(b)
    requires a != [] && b != [] && a[0] == b[0]
    ensures KeysAscending(a[1..]) && KeysNonDescending(b[1..])
    ensures multiset(a[1..]) == multiset(b[1..])
  {
    AscendingTail(a);
    NonDescendingTail(b);
    MultisetTail(a);
    MultisetTail(b);
  }

  lemma MultisetTail<T>(s: seq<T>)
    requires s != []
    ensures multiset(s[1..]) == multiset(s) - multiset{s[0]}
  {
    assert s == [s[0]] + s[1..];
  }

  lemma AscendingTail(a: seq<Field>)
    requires KeysAscending(a) && a != []
    ensures KeysAscending(a[1..])
  {
    forall i, j | 0 <= i < j < |a| - 1 ensures KeyLess(a[1..][i].key, a[1..][j].key) {
      assert a[1..][i] == a[i + 1] && a[1..][j] == a[j + 1];
    }
  }

  lemma NonDescendingTail(b: seq<Field>)
    requires KeysNonDescending(b) && b != []
    ensures KeysNonDescending(b[1..])
  {
    forall i, j | 0 <= i < j < |b| - 1 ensures !KeyLess(b[1..][j].key, b[1..][i].key) {
      assert b[1..][i] == b[i + 1] && b[1..][j] == b[j + 1];
    }
  }

  /** Sorting ignores insertion order: two arrangements of the same items of
      a dict sort to the same sequence. */
  lemma SortIgnoresInsertionOrder(f1: seq<Field>, f2: seq<Field>)
    requires UniqueKeys(f1)
    requires multiset(f1) == multiset(f2)
    ensures SortFields(f1) == SortFields(f2)
  {
    SortAscending(f1);
    SortNonDescending(f2);
    SortedArrangementUnique(SortFields(f1), SortFields(f2));
  }

  // ---------------------------------------------------------------------
  // Canonical form and text
  // ---------------------------------------------------------------------

  /** What json.dumps actually encodes: every dict's items in sorted key order
      (`sort_keys=True`) and every non-JSON value replaced by its `str()`
      (`default=str`). Lists keep their order. */
  function Canon(j: Json): (c: Json)
    ensures NoOther(c)
    ensures j.JArr? <==> c.JArr?
    ensures j.JObj? <==> c.JObj?
    ensures c.JObj? ==> KeysNonDescending(c.fields)
    decreases j
  {
    match j
    case JOther(t) => JStr(t)
    case JArr(items) => JArr(CanonItems(items))
    case JObj(fields) =>
      SortNonDescending(CanonFields(fields));
      JObj(SortFields(CanonFields(fields)))
    case _ => j
  }

  function CanonItems(items: seq<Json>): (r: seq<Json>)
    ensures |r| == |items|
    ensures forall k | 0 <= k < |r| :: r[k] == Canon(items[k])
    decreases items
  {
    if items == [] then [] else [Canon(items[0])] + CanonItems(items[1..])
  }

  function CanonFields(fields: seq<Field>): (r: seq<Field>)
    ensures |r| == |fields|
    ensures forall k | 0 <= k < |r| :: r[k] == Field(fields[k].key, Canon(fields[k].value))
    ensures forall f | f in r :: NoOther(f.value)
    decreases fields
  {
    if fields == [] then []
    else [Field(fields[0].key, Canon(fields[0].value))] + CanonFields(fields[1..])
  }

  /** JSON text of a value, items in the order given, with json.dumps' default
      separators ", " and ": ". */
  function Write(j: Json): string
    decreases j
  {
    match j
    case JNull => "null"
    case JBool(b) => if b then "true" else "false"
    case JInt(i) => IntText(i)
    case JFloat(r) => r
    case JStr(s) => Quote(s)
    case JOther(t) => Quote(t)
    case JArr(items) => "[" + WriteItems(items) + "]"
    case JObj(fields) => "{" + WriteFields(fields) + "}"
  }

  function WriteItems(items: seq<Json>): string
    decreases items
  {
    if items == [] then ""
    else if |items| == 1 then Write(items[0])
    else Write(items[0]) + ", " + WriteItems(items[1..])
  }

  function WriteField(f: Field): string
    decreases f, 1
  {
    Quote(f.key) + ": " + Write(f.value)
  }

  function WriteFields(fields: seq<Field>): string
    decreases fields
  {
    if fields == [] then ""
    else if |fields| == 1 then WriteField(fields[0])
    else WriteField(fields[0]) + ", " + WriteFields(fields[1..])
  }

  /** `json.dumps(payload, sort_keys=True, default=str)`. */
  function CanonicalText(j: Json): string {
    Write(Canon(j))
  }
  // ---------------------------------------------------------------------
  // Insertion order does not matter
  // ---------------------------------------------------------------------

  function MapSeq<A, B>(f: A -> B, s: seq<A>): (r: seq<B>)
    ensures |r| == |s| && forall k | 0 <= k < |s| :: r[k] == f(s[k])
  {
    seq(|s|, k requires 0 <= k < |s| => f(s[k]))
  }

  lemma MapSeqRemoveOne<A, B>(f: A -> B, s: seq<A>, k: nat)
    requires k < |s|
    ensures multiset(MapSeq(f, s)) == multiset(MapSeq(f, s[..k] + s[k + 1..])) + multiset{f(s[k])}
  {
    var m := MapSeq(f, s);
    var t := s[..k] + s[k + 1..];
    assert m == m[..k] + [m[k]] + m[k + 1..];
    forall i | 0 <= i < |t| ensures MapSeq(f, t)[i] == (m[..k] + m[k + 1..])[i] {
      if i < k {
        assert t[i] == s[i];
      } else {
        assert t[i] == s[i + 1];
      }
    }
    assert MapSeq(f, t) == m[..k] + m[k + 1..];
  }

  /** Mapping two arrangements of the same items gives two arrangements of
      the same images. */
  lemma {:induction false} MapSeqPermutation<A, B>(f: A -> B, s1: seq<A>, s2: seq<A>)
    requires multiset(s1) == multiset(s2)
    ensures multiset(MapSeq(f, s1)) == multiset(MapSeq(f, s2))
    decreases |s1|
  {
    assert |s1| == |multiset(s1)| == |multiset(s2)| == |s2|;
    if s1 != [] {
      var x := s1[0];
      assert x in multiset(s2);
      var k :| 0 <= k < |s2| && s2[k] == x;
      var rest2 := s2[..k] + s2[k + 1..];
      assert s2 == s2[..k] + [x] + s2[k + 1..];
      assert multiset(rest2) == multiset(s2) - multiset{x};
      assert s1 == [x] + s1[1..];
      assert multiset(s1[1..]) == multiset(s1) - multiset{x};
      MapSeqPermutation(f, s1[1..], rest2);
      MapSeqRemoveOne(f, s2, k);
      MapSeqRemoveOne(f, s1, 0);
      assert s1[..0] + s1[1..] == s1[1..];
    }
  }

  function CanonField(f: Field): Field {
    Field(f.key, Canon(f.value))
  }

  lemma CanonFieldsPermutation(f1: seq<Field>, f2: seq<Field>)
    requires multiset(f1) == multiset(f2)
    ensures multiset(CanonFields(f1)) == multiset(CanonFields(f2))
  {
    assert CanonFields(f1) == MapSeq(CanonField, f1);
    assert CanonFields(f2) == MapSeq(CanonField, f2);
    MapSeqPermutation(CanonField, f1, f2);
  }

  /** Two dicts have the same canonical form exactly when they hold the same
      key/value items, whatever order the items were inserted in; the items
      are compared in canonical form, so this holds at every nesting level. */
  lemma CanonObjectIff(f1: seq<Field>, f2: seq<Field>)
    requires UniqueKeys(f1)
    ensures Canon(JObj(f1)) == Canon(JObj(f2))
        <==> multiset(CanonFields(f1)) == multiset(CanonFields(f2))
  {
    var c1, c2 := CanonFields(f1), CanonFields(f2);
    assert Canon(JObj(f1)) == JObj(SortFields(c1));
    assert Canon(JObj(f2)) == JObj(SortFields(c2));
    if multiset(c1) == multiset(c2) {
      CanonFieldsKeepKeys(f1);
      SortIgnoresInsertionOrder(c1, c2);
    }
  }

  lemma CanonFieldsKeepKeys(f: seq<Field>)
    requires UniqueKeys(f)
    ensures UniqueKeys(CanonFields(f))
  {
    var c := CanonFields(f);
    forall i, j | 0 <= i < j < |c| ensures c[i].key != c[j].key {
      assert c[i].key == f[i].key && c[j].key == f[j].key;
    }
  }

  /** In two arrangements of the same items, a key that occurs once in the
      second carries the same item in both. */
  lemma SameItemUnderKey(c1: seq<Field>, c2: seq<Field>, i: nat, j: nat)
    requires multiset(c1) == multiset(c2)
    requires i < |c1| && j < |c2| && c1[i].key == c2[j].key
    requires forall k | 0 <= k < |c2| && k != j :: c2[k].key != c2[j].key
    ensures c1[i] == c2[j]
  {
    assert c1[i] in multiset(c2);
  }

  /** Two dicts whose items under one key differ in canonical form have
      different canonical forms, when that key occurs once in the second. */
  lemma FieldValueMatters(f1: seq<Field>, f2: seq<Field>, i: nat, j: nat)
    requires i < |f1| && j < |f2| && f1[i].key == f2[j].key
    requires forall k | 0 <= k < |f2| && k != j :: f2[k].key != f2[j].key
    requires Canon(f1[i].value) != Canon(f2[j].value)
    ensures Canon(JObj(f1)) != Canon(JObj(f2))
  {
    var c1, c2 := CanonFields(f1), CanonFields(f2);
    assert Canon(JObj(f1)) == JObj(SortFields(c1));
    assert Canon(JObj(f2)) == JObj(SortFields(c2));
    forall k | 0 <= k < |c2| && k != j ensures c2[k].key != c2[j].key {
      assert c2[k].key == f2[k].key && c2[j].key == f2[j].key;
    }
    assert c1[i].key == c2[j].key;
    assert c1[i] != c2[j];
    if SortFields(c1) == SortFields(c2) {
      SameItemUnderKey(c1, c2, i, j);
    }
  }

  /** Lists whose first items differ in canonical form differ in canonical
      form. */
  lemma ArrayHeadMatters(x1: seq<Json>, x2: seq<Json>)
    requires x1 != [] && x2 != [] && Canon(x1[0]) != Canon(x2[0])
    ensures Canon(JArr(x1)) != Canon(JArr(x2))
  {
    assert Canon(JArr(x1)).items[0] == Canon(x1[0]);
    assert Canon(JArr(x2)).items[0] == Canon(x2[0]);
  }

  /** Re-inserting the items of a dict in another order leaves its canonical
      text unchanged. */
  lemma InsertionOrderIrrelevant(f1: seq<Field>, f2: seq<Field>)
    requires UniqueKeys(f1)
    requires multiset(f1) == multiset(f2)
    ensures CanonicalText(JObj(f1)) == CanonicalText(JObj(f2))
  {
    CanonFieldsPermutation(f1, f2);
    CanonObjectIff(f1, f2);
  }

  /** A non-JSON value is written exactly as the string `str()` gives for it. */
  lemma OtherWrittenAsString(t: string)
    ensures CanonicalText(JOther(t)) == CanonicalText(JStr(t)) == Quote(t)
  {
  }
}
