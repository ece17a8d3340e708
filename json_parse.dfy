/** A reader for the JSON text `Json.Write` produces. It is not part of the
    source; it is the partner of the canonical writer, and reading back what
    was written shows that the canonical text determines the canonical value:
    two payloads hash the same text only when they hold the same content. */
module JsonParse {
  import opened Wrappers
  import opened Json

  /** The contents of a string literal up to its closing quote (the opening
      quote already read), and the text after it. */
  function ParseString(s: string): (r: Option<(string, string)>)
    ensures r.Some? ==> |r.value.1| < |s|
    decreases |s|
  {
    if s == [] then None
    else if s[0] == '"' then Some(([], s[1..]))
    else if s[0] == '\\' then
      if |s| < 2 then None
      else match ParseString(s[2..])
        case None => None
        case Some((t, rest)) => Some(([s[1]] + t, rest))
    else match ParseString(s[1..])
      case None => None
      case Some((t, rest)) => Some(([s[0]] + t, rest))
  }

  /** Length of the longest prefix made of number characters. */
  function NumberLength(s: string): (n: nat)
    ensures n <= |s|
    ensures forall i | 0 <= i < n :: IsNumberChar(s[i])
    ensures n < |s| ==> !IsNumberChar(s[n])
  {
    if s == [] || !IsNumberChar(s[0]) then 0 else 1 + NumberLength(s[1..])
  }

  function DigitValue(c: char): nat
    requires IsDigit(c)
  {
    (c as int - '0' as int) as nat
  }

  function ParseNat(t: string): nat
    requires AllDigits(t)
  {
    if t == [] then 0 else ParseNat(t[..|t| - 1]) * 10 + DigitValue(t[|t| - 1])
  }

  predicate IsIntText(t: string) {
    || (|t| > 0 && AllDigits(t))
    || (|t| > 1 && t[0] == '-' && AllDigits(t[1..]))
  }

  function ParseInt(t: string): int
    requires IsIntText(t)
  {
    if t[0] == '-' then -(ParseNat(t[1..]) as int) else ParseNat(t)
  }

  function ParseNumber(s: string): (r: Option<(Json, string)>)
    ensures r.Some? ==> |r.value.1| < |s|
  {
    var n := NumberLength(s);
    var text := s[..n];
    if n == 0 then None
    else if IsIntText(text) then Some((JInt(ParseInt(text)), s[n..]))
    else if IsFloatRepr(text) then Some((JFloat(text), s[n..]))
    else None
  }

  /** A keyword literal (`null`, `true`, `false`) at the front of `s`. */
  function ParseKeyword(s: string, word: string, v: Json): (r: Option<(Json, string)>)
    requires |word| > 0
    ensures r.Some? ==> |r.value.1| < |s|
  {
    if |s| >= |word| && s[..|word|] == word then Some((v, s[|word|..])) else None
  }

  function ParseValue(s: string): (r: Option<(Json, string)>)
    ensures r.Some? ==> |r.value.1| < |s|
    decreases |s|, 1
  {
    if s == [] then None
    else if s[0] == 'n' then ParseKeyword(s, "null", JNull)
    else if s[0] == 't' then ParseKeyword(s, "true", JBool(true))
    else if s[0] == 'f' then ParseKeyword(s, "false", JBool(false))
    else if s[0] == '"' then ParseStringValue(s[1..])
    else if s[0] == '[' then ParseArray(s[1..])
    else if s[0] == '{' then ParseObject(s[1..])
    else ParseNumber(s)
  }

  function ParseStringValue(s: string): (r: Option<(Json, string)>)
    ensures r.Some? ==> |r.value.1| < |s|
  {
    match ParseString(s)
    case None => None
    case Some((t, rest)) => Some((JStr(t), rest))
  }

  /** A list after its opening bracket. */
  function ParseArray(s: string): (r: Option<(Json, string)>)
    ensures r.Some? ==> |r.value.1| < |s|
    decreases |s|, 3
  {
    if s != [] && s[0] == ']' then Some((JArr([]), s[1..]))
    else match ParseItems(s)
      case None => None
      case Some((items, rest)) => Some((JArr(items), rest))
  }

  /** A dict after its opening brace. */
  function ParseObject(s: string): (r: Option<(Json, string)>)
    ensures r.Some? ==> |r.value.1| < |s|
    decreases |s|, 3
  {
    if s != [] && s[0] == '}' then Some((JObj([]), s[1..]))
    else match ParseFields(s)
      case None => None
      case Some((fields, rest)) => Some((JObj(fields), rest))
  }

  /** The items of a non-empty list up to and including its closing bracket. */
  function ParseItems(s: string): (r: Option<(seq<Json>, string)>)
    ensures r.Some? ==> |r.value.1| < |s|
    decreases |s|, 2
  {
    match ParseValue(s)
    case None => None
    case Some((v, rest)) =>
      if |rest| >= 2 && rest[..2] == ", " then
        match ParseItems(rest[2..])
        case None => None
        case Some((vs, rest2)) => Some(([v] + vs, rest2))
      else if |rest| >= 1 && rest[0] == ']' then Some(([v], rest[1..]))
      else None
  }

  /** The items of a non-empty dict up to and including its closing brace. */
  function ParseFields(s: string): (r: Option<(seq<Field>, string)>)
    ensures r.Some? ==> |r.value.1| < |s|
    decreases |s|, 2
  {
    if s == [] || s[0] != '"' then None
    else match ParseString(s[1..])
      case None => None
      case Some((k, r1)) =>
        if |r1| >= 2 && r1[..2] == ": " then
          match ParseValue(r1[2..])
          case None => None
          case Some((v, r2)) =>
            if |r2| >= 2 && r2[..2] == ", " then
              match ParseFields(r2[2..])
              case None => None
              case Some((fs, r3)) => Some(([Field(k, v)] + fs, r3))
            else if |r2| >= 1 && r2[0] == '}' then Some(([Field(k, v)], r2[1..]))
            else None
        else None
  }

  /** `Parse(text)` reads one whole JSON text. */
  function Parse(text: string): Option<Json> {
    match ParseValue(text)
    case Some((j, rest)) => if rest == [] then Some(j) else None
    case None => None
  }

  // ---------------------------------------------------------------------
  // Reading back what was written
  // ---------------------------------------------------------------------

  /** What may follow a value: nothing, or a character that cannot continue
      a number. */
  predicate Delimited(rest: string) {
    rest == [] || !IsNumberChar(rest[0])
  }

  lemma {:induction false} ParseEscaped(t: string, rest: string)
    ensures ParseString(Escape(t) + "\"" + rest) == Some((t, rest))
    decreases |t|
  {
    if t == [] {
      assert Escape(t) + "\"" + rest == "\"" + rest;
    } else {
      var s := Escape(t) + "\"" + rest;
      assert s == EscapeChar(t[0]) + (Escape(t[1..]) + "\"" + rest);
      ParseEscaped(t[1..], rest);
      if t[0] == '"' || t[0] == '\\' {
        assert s[2..] == Escape(t[1..]) + "\"" + rest;
      } else {
        assert s[1..] == Escape(t[1..]) + "\"" + rest;
      }
      assert t == [t[0]] + t[1..];
    }
  }

  lemma {:induction false} ParseNatText(n: nat)
    ensures ParseNat(NatText(n)) == n
    decreases n
  {
    if n >= 10 {
      var t := NatText(n);
      assert t[..|t| - 1] == NatText(n / 10);
      ParseNatText(n / 10);
    }
  }

  lemma ParseIntText(i: int)
    ensures IsIntText(IntText(i)) && ParseInt(IntText(i)) == i
  {
    if i < 0 {
      ParseNegativeText(-i);
    } else {
      ParseNonNegativeText(i);
    }
  }

  lemma ParseNegativeText(n: nat)
    ensures var t := "-" + NatText(n);
      IsIntText(t) && ParseInt(t) == -(n as int)
  {
    var t := "-" + NatText(n);
    assert t[0] == '-' && t[1..] == NatText(n);
    ParseNatText(n);
  }

  lemma ParseNonNegativeText(n: nat)
    ensures IsIntText(NatText(n)) && ParseInt(NatText(n)) == n
  {
    var t := NatText(n);
    assert IsDigit(t[0]);
    ParseNatText(n);
  }

  lemma FloatIsNotInt(t: string)
    requires IsFloatRepr(t)
    ensures !IsIntText(t)
  {
    var k :| 0 <= k < |t| && (t[k] == '.' || t[k] == 'e');
    if k > 0 {
      assert t[1..][k - 1] == t[k];
    }
  }

  lemma {:induction false} NumberLengthOf(lit: string, rest: string)
    requires forall i | 0 <= i < |lit| :: IsNumberChar(lit[i])
    requires Delimited(rest)
    ensures NumberLength(lit + rest) == |lit|
    decreases |lit|
  {
    if lit == [] {
      assert lit + rest == rest;
    } else {
      assert (lit + rest)[1..] == lit[1..] + rest;
      NumberLengthOf(lit[1..], rest);
    }
  }

  lemma ReadNumber(lit: string, rest: string)
    requires |lit| > 0 && forall i | 0 <= i < |lit| :: IsNumberChar(lit[i])
    requires Delimited(rest)
    ensures (lit + rest)[..NumberLength(lit + rest)] == lit
    ensures (lit + rest)[NumberLength(lit + rest)..] == rest
  {
    NumberLengthOf(lit, rest);
  }

  lemma ReadKeyword(word: string, v: Json, rest: string)
    requires |word| > 0
    ensures ParseKeyword(word + rest, word, v) == Some((v, rest))
  {
    assert (word + rest)[..|word|] == word;
    assert (word + rest)[|word|..] == rest;
  }

  lemma ReadKeywordValue(word: string, v: Json, rest: string)
    requires word in {"null", "true", "false"}
    requires v == (if word == "null" then JNull else JBool(word == "true"))
    ensures ParseValue(word + rest) == Some((v, rest))
  {
    ReadKeyword(word, v, rest);
  }

  lemma ReadString(t: string, rest: string)
    ensures ParseValue(Quote(t) + rest) == Some((JStr(t), rest))
  {
    var s := Quote(t) + rest;
    assert s[1..] == Escape(t) + "\"" + rest;
    ParseEscaped(t, rest);
  }

  lemma ReadInt(i: int, rest: string)
    requires Delimited(rest)
    ensures ParseValue(IntText(i) + rest) == Some((JInt(i), rest))
  {
    var s := IntText(i) + rest;
    ParseIntText(i);
    ReadNumber(IntText(i), rest);
    assert s[0] == IntText(i)[0];
  }

  lemma ReadFloat(r: FloatRepr, rest: string)
    requires Delimited(rest)
    ensures ParseValue(r + rest) == Some((JFloat(r), rest))
  {
    var s := r + rest;
    FloatIsNotInt(r);
    ReadNumber(r, rest);
    assert s[0] == r[0];
  }

  lemma ReadArray(items: seq<Json>, rest: string)
    requires forall x | x in items :: NoOther(x)
    requires Delimited(rest)
    ensures ParseValue(Write(JArr(items)) + rest) == Some((JArr(items), rest))
    decreases items, 1
  {
    var body := WriteItems(items) + "]" + rest;
    Enclose("[", WriteItems(items), "]", rest);
    ParseValueArray(body);
    if items == [] {
      assert body == "]" + rest;
    } else {
      ReadWrittenItems(items, rest);
      ItemsTextStart(items, "]" + rest);
      ParseArrayItems(body, items, rest);
    }
  }

  lemma ReadObject(fields: seq<Field>, rest: string)
    requires forall f | f in fields :: NoOther(f.value)
    requires Delimited(rest)
    ensures ParseValue(Write(JObj(fields)) + rest) == Some((JObj(fields), rest))
    decreases fields, 1
  {
    var body := WriteFields(fields) + "}" + rest;
    Enclose("{", WriteFields(fields), "}", rest);
    ParseValueObject(body);
    if fields == [] {
      assert body == "}" + rest;
    } else {
      ReadWrittenFields(fields, rest);
      FieldsTextStart(fields, "}" + rest);
      ParseObjectFields(body, fields, rest);
    }
  }

  lemma Enclose(open: string, w: string, close: string, rest: string)
    ensures open + w + close + rest == open + (w + close + rest)
  {
  }

  lemma ParseValueArray(body: string)
    ensures ParseValue("[" + body) == ParseArray(body)
  {
    assert ("[" + body)[0] == '[' && ("[" + body)[1..] == body;
  }

  lemma ParseValueObject(body: string)
    ensures ParseValue("{" + body) == ParseObject(body)
  {
    assert ("{" + body)[0] == '{' && ("{" + body)[1..] == body;
  }

  lemma ParseArrayItems(body: string, items: seq<Json>, rest: string)
    requires body != [] && body[0] != ']'
    requires ParseItems(body) == Some((items, rest))
    ensures ParseArray(body) == Some((JArr(items), rest))
  {
  }

  lemma ParseObjectFields(body: string, fields: seq<Field>, rest: string)
    requires body != [] && body[0] != '}'
    requires ParseFields(body) == Some((fields, rest))
    ensures ParseObject(body) == Some((JObj(fields), rest))
  {
  }

  /** The text of a non-empty list's items does not start with a closing
      bracket. */
  lemma ItemsTextStart(items: seq<Json>, t: string)
    requires items != []
    ensures WriteItems(items) + t != [] && (WriteItems(items) + t)[0] != ']'
  {
    var w := Write(items[0]);
    var tail := if |items| == 1 then t else ", " + WriteItems(items[1..]) + t;
    assert WriteItems(items) + t == w + tail;
    WrittenStart(items[0], tail);
  }

  /** The text of a non-empty dict's items starts with a quote. */
  lemma FieldsTextStart(fields: seq<Field>, t: string)
    requires fields != []
    ensures WriteFields(fields) + t != [] && (WriteFields(fields) + t)[0] == '"'
  {
    var w := WriteField(fields[0]);
    assert w[0] == '"' by {
      assert w == "\"" + (Escape(fields[0].key) + "\"" + ": " + Write(fields[0].value));
    }
    if |fields| > 1 {
      assert WriteFields(fields) == w + (", " + WriteFields(fields[1..]));
    }
    assert (WriteFields(fields) + t)[0] == WriteFields(fields)[0];
  }

  /** No value's text starts with a closing bracket. */
  lemma WrittenStart(j: Json, t: string)
    ensures Write(j) + t != [] && (Write(j) + t)[0] != ']'
  {
    match j
    case JInt(i) =>
      assert IsNumberChar(IntText(i)[0]);
    case JFloat(r) =>
      assert IsNumberChar(r[0]);
    case _ =>
  }

  /** Reading back the text of a value with no pending `str()` conversions
      gives the value itself, and leaves what followed it. */
  lemma {:induction false} ReadWritten(j: Json, rest: string)
    requires NoOther(j)
    requires Delimited(rest)
    ensures ParseValue(Write(j) + rest) == Some((j, rest))
    decreases j, 2
  {
    match j
    case JNull => ReadKeywordValue("null", j, rest);
    case JBool(b) => ReadKeywordValue(if b then "true" else "false", j, rest);
    case JInt(i) => ReadInt(i, rest);
    case JFloat(r) => ReadFloat(r, rest);
    case JStr(t) => ReadString(t, rest);
    case JArr(items) => ReadArray(items, rest);
    case JObj(fields) => ReadObject(fields, rest);
  }

  lemma {:induction false} ReadWrittenItems(items: seq<Json>, rest: string)
    requires items != []
    requires forall x | x in items :: NoOther(x)
    ensures ParseItems(WriteItems(items) + "]" + rest) == Some((items, rest))
    decreases items, 0
  {
    var w := Write(items[0]);
    if |items| == 1 {
      ReadWritten(items[0], "]" + rest);
      LastItem(w, items[0], rest);
      assert WriteItems(items) + "]" + rest == w + ("]" + rest);
      assert items == [items[0]];
    } else {
      var tail := WriteItems(items[1..]) + "]" + rest;
      ReadWritten(items[0], ", " + tail);
      ReadWrittenItems(items[1..], rest);
      ItemBeforeMore(w, items[0], tail, items[1..], rest);
      assert WriteItems(items) == w + ", " + WriteItems(items[1..]);
      Regroup(w, ", ", WriteItems(items[1..]), "]", rest);
      assert items == [items[0]] + items[1..];
    }
  }

  /** Text pieces regrouped around the separator after the first one. */
  lemma Regroup(a: string, b: string, c: string, d: string, e: string)
    ensures a + b + c + d + e == a + (b + (c + d + e))
  {
  }

  /** An item's text followed by the closing bracket ends the list. */
  lemma LastItem(w: string, x: Json, rest: string)
    requires ParseValue(w + ("]" + rest)) == Some((x, "]" + rest))
    ensures ParseItems(w + ("]" + rest)) == Some(([x], rest))
  {
    ClosingBracket(']', rest);
  }

  /** An item's text followed by a comma and the text of more items. */
  lemma ItemBeforeMore(w: string, x: Json, tail: string, more: seq<Json>, rest: string)
    requires ParseValue(w + (", " + tail)) == Some((x, ", " + tail))
    requires ParseItems(tail) == Some((more, rest))
    ensures ParseItems(w + (", " + tail)) == Some(([x] + more, rest))
  {
    Separator(", ", tail);
  }

  /** The key and the value of one written dict entry are read back. */
  lemma ReadFieldHead(f: Field, after: string)
    requires NoOther(f.value)
    requires Delimited(after)
    ensures var s := WriteField(f) + after;
      s != [] && s[0] == '"' &&
      ParseString(s[1..]) == Some((f.key, ": " + (Write(f.value) + after)))
    ensures ParseValue(Write(f.value) + after) == Some((f.value, after))
    decreases f, 1
  {
    var s := WriteField(f) + after;
    assert s == "\"" + Escape(f.key) + "\"" + (": " + (Write(f.value) + after));
    assert s[1..] == Escape(f.key) + "\"" + (": " + (Write(f.value) + after));
    ParseEscaped(f.key, ": " + (Write(f.value) + after));
    ReadWritten(f.value, after);
  }

  lemma {:induction false} ReadWrittenFields(fields: seq<Field>, rest: string)
    requires fields != []
    requires forall f | f in fields :: NoOther(f.value)
    ensures ParseFields(WriteFields(fields) + "}" + rest) == Some((fields, rest))
    decreases fields, 0
  {
    if |fields| == 1 {
      ReadLastField(fields[0], rest);
      assert fields == [fields[0]];
    } else {
      var tail := WriteFields(fields[1..]) + "}" + rest;
      assert WriteFields(fields) == WriteField(fields[0]) + ", " + WriteFields(fields[1..]);
      Regroup(WriteField(fields[0]), ", ", WriteFields(fields[1..]), "}", rest);
      ReadWrittenFields(fields[1..], rest);
      ReadFieldBeforeMore(fields[0], tail, fields[1..], rest);
      assert fields == [fields[0]] + fields[1..];
    }
  }

  lemma ReadLastField(f: Field, rest: string)
    requires NoOther(f.value)
    ensures ParseFields(WriteField(f) + "}" + rest) == Some(([f], rest))
    decreases f, 2
  {
    var after := "}" + rest;
    assert WriteField(f) + "}" + rest == WriteField(f) + after;
    ReadFieldHead(f, after);
    Separator(": ", Write(f.value) + after);
    ClosingBracket('}', rest);
    ParseFieldsLast(WriteField(f) + after, f.key, ": " + (Write(f.value) + after), f.value, after);
  }

  /** A closing bracket is not an item separator. */
  lemma ClosingBracket(c: char, rest: string)
    requires c == ']' || c == '}'
    ensures var after := [c] + rest;
      after[0] == c && after[1..] == rest && !(|after| >= 2 && after[..2] == ", ")
  {
    var after := [c] + rest;
    if |after| >= 2 { assert after[..2][0] == c; }
  }

  lemma ReadFieldBeforeMore(f: Field, tail: string, more: seq<Field>, rest: string)
    requires NoOther(f.value)
    requires ParseFields(tail) == Some((more, rest))
    ensures ParseFields(WriteField(f) + (", " + tail)) == Some(([f] + more, rest))
    decreases f, 2
  {
    var after := ", " + tail;
    ReadFieldHead(f, after);
    Separator(": ", Write(f.value) + after);
    Separator(", ", tail);
    ParseFieldsCons(WriteField(f) + after, f.key, ": " + (Write(f.value) + after), f.value, after, more, rest);
  }

  lemma Separator(sep: string, t: string)
    requires |sep| == 2
    ensures |sep + t| >= 2 && (sep + t)[..2] == sep && (sep + t)[2..] == t
  {
  }

  /** One step of `ParseFields`: an entry followed by a comma and more
      entries. */
  lemma ParseFieldsCons(s: string, k: string, r1: string, v: Json, r2: string, fs: seq<Field>, r3: string)
    requires s != [] && s[0] == '"' && ParseString(s[1..]) == Some((k, r1))
    requires |r1| >= 2 && r1[..2] == ": " && ParseValue(r1[2..]) == Some((v, r2))
    requires |r2| >= 2 && r2[..2] == ", " && ParseFields(r2[2..]) == Some((fs, r3))
    ensures ParseFields(s) == Some(([Field(k, v)] + fs, r3))
  {
  }

  /** The last step of `ParseFields`: an entry followed by the closing
      brace. */
  lemma ParseFieldsLast(s: string, k: string, r1: string, v: Json, r2: string)
    requires s != [] && s[0] == '"' && ParseString(s[1..]) == Some((k, r1))
    requires |r1| >= 2 && r1[..2] == ": " && ParseValue(r1[2..]) == Some((v, r2))
    requires !(|r2| >= 2 && r2[..2] == ", ") && |r2| >= 1 && r2[0] == '}'
    ensures ParseFields(s) == Some(([Field(k, v)], r2[1..]))
  {
  }

  /** The writer loses nothing: a value without pending conversions is read
      back whole from its text. */
  lemma ParseWrite(j: Json)
    requires NoOther(j)
    ensures Parse(Write(j)) == Some(j)
  {
    ReadWritten(j, []);
    assert Write(j) + [] == Write(j);
  }

  /** Canonical texts are equal exactly when canonical values are equal: the
      text hashed by the checksum carries the whole logical content of the
      payload, and nothing of its dicts' insertion order. */
  lemma CanonicalTextIff(a: Json, b: Json)
    ensures CanonicalText(a) == CanonicalText(b) <==> Canon(a) == Canon(b)
  {
    if CanonicalText(a) == CanonicalText(b) {
      ParseWrite(Canon(a));
      ParseWrite(Canon(b));
    }
  }

  /** Dicts whose items under one key differ in canonical form have
      different canonical texts, when that key occurs once in the second. */
  lemma FieldValueChangesText(f1: seq<Field>, f2: seq<Field>, i: nat, j: nat)
    requires i < |f1| && j < |f2| && f1[i].key == f2[j].key
    requires forall k | 0 <= k < |f2| && k != j :: f2[k].key != f2[j].key
    requires Canon(f1[i].value) != Canon(f2[j].value)
    ensures CanonicalText(JObj(f1)) != CanonicalText(JObj(f2))
  {
    FieldValueMatters(f1, f2, i, j);
    CanonicalTextIff(JObj(f1), JObj(f2));
  }

  /** Lists keep their order in the canonical text: swapping two items with
      different content changes the text. */
  lemma ListOrderMatters(a: Json, b: Json)
    requires Canon(a) != Canon(b)
    ensures CanonicalText(JArr([a, b])) != CanonicalText(JArr([b, a]))
  {
    CanonicalTextIff(JArr([a, b]), JArr([b, a]));
    assert Canon(JArr([a, b])).items[0] == Canon(a);
    assert Canon(JArr([b, a])).items[0] == Canon(b);
  }
}
