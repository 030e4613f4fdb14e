/**
 The canonical serialiser behind idempotency: JSON text with object keys in sorted order.
 Text is a sequence of UTF-16 code units, as in the source's strings.
 */
module StableJson {
  import opened Common

  type Unit = x: int | 0 <= x < 0x1_0000

  type Text = seq<Unit>

  const QUOTE: Unit := 0x22
  const BACKSLASH: Unit := 0x5C
  const COMMA: Unit := 0x2C
  const COLON: Unit := 0x3A
  const OPEN_BRACKET: Unit := 0x5B
  const CLOSE_BRACKET: Unit := 0x5D
  const OPEN_BRACE: Unit := 0x7B
  const CLOSE_BRACE: Unit := 0x7D
  const LOWER_U: Unit := 0x75

  const NULL: Text := [0x6E, 0x75, 0x6C, 0x6C]
  const TRUE: Text := [0x74, 0x72, 0x75, 0x65]
  const FALSE: Text := [0x66, 0x61, 0x6C, 0x73, 0x65]

  predicate IsDigit(u: Unit) {
    0x30 <= u <= 0x39
  }

  /** The characters of a JSON number: digits, minus, plus, point and exponent letters. */
  predicate IsNumberUnit(u: Unit) {
    IsDigit(u) || u == 0x2D || u == 0x2B || u == 0x2E || u == 0x65 || u == 0x45
  }

  predicate IsNumberText(t: Text) {
    && t != []
    && (IsDigit(t[0]) || t[0] == 0x2D)
    && forall i | 0 <= i < |t| :: IsNumberUnit(t[i])
  }

  /** A number stands for its decimal text. */
  type NumberText = t: Text | IsNumberText(t) witness [0x30]

  datatype Json =
    | Null
    | Bool(b: bool)
    | Number(digits: NumberText)
    | String(text: Text)
    | Array(items: seq<Json>)
    | Object(fields: seq<Field>)

  /** The fields of an object in insertion order. */
  datatype Field = Field(key: Text, value: Json)

  // ---- Key order ----

  /** The order of `Array.prototype.sort` on strings: code unit by code unit. */
  predicate Less(a: Text, b: Text) {
    if b == [] then false
    else if a == [] then true
    else a[0] < b[0] || (a[0] == b[0] && Less(a[1..], b[1..]))
  }

  lemma {:induction false} LessTotal(a: Text, b: Text)
    ensures a != b ==> Less(a, b) || Less(b, a)
    ensures !(Less(a, b) && Less(b, a)) && !Less(a, a)
  {
    if a != [] && b != [] {
      LessTotal(a[1..], b[1..]);
      if a[0] == b[0] && a[1..] == b[1..] {
        assert a == [a[0]] + a[1..] && b == [b[0]] + b[1..];
      }
    }
    if a != [] {
      LessTotal(a[1..], a[1..]);
    }
  }

  lemma {:induction false} LessTransitive(a: Text, b: Text, c: Text)
    requires Less(a, b) && Less(b, c)
    ensures Less(a, c)
  {
    if a != [] && a[0] == b[0] == c[0] {
      LessTransitive(a[1..], b[1..], c[1..]);
    }
  }

  /** a runs out at position k, or has the smaller code unit there, and agrees with b up to it. */
  predicate LessAt(a: Text, b: Text, k: nat) {
    k <= |a| && k < |b| && (forall j | 0 <= j < k :: a[j] == b[j]) && (k == |a| || a[k] < b[k])
  }

  /** The order is that of the first difference. */
  lemma {:induction false} LessAtFirstDifference(a: Text, b: Text)
    ensures Less(a, b) <==> exists k: nat :: LessAt(a, b, k)
  {
    if b != [] && a == [] {
      assert LessAt(a, b, 0);
    } else if a != [] && b != [] {
      LessAtFirstDifference(a[1..], b[1..]);
      if a[0] < b[0] {
        assert LessAt(a, b, 0);
      } else if a[0] == b[0] {
        if Less(a, b) {
          var k: nat :| LessAt(a[1..], b[1..], k);
          forall j | 0 <= j < k + 1 ensures a[j] == b[j] {
            assert j > 0 ==> a[1..][j - 1] == b[1..][j - 1];
          }
          assert LessAt(a, b, k + 1);
        }
        if k: nat :| LessAt(a, b, k) {
          assert LessAt(a[1..], b[1..], k - 1);
        }
      }
    }
  }

  ghost predicate DistinctKeys(fields: seq<Field>) {
    forall i, j | 0 <= i < j < |fields| :: fields[i].key != fields[j].key
  }

  /** Strictly ascending keys. */
  ghost predicate Ascending(fields: seq<Field>) {
    forall i, j | 0 <= i < j < |fields| :: Less(fields[i].key, fields[j].key)
  }

  function Insert(f: Field, sorted: seq<Field>): (r: seq<Field>)
    ensures multiset(r) == multiset(sorted) + multiset{f}
  {
    if sorted == [] || !Less(sorted[0].key, f.key) then [f] + sorted
    else
      assert sorted == [sorted[0]] + sorted[1..];
      [sorted[0]] + Insert(f, sorted[1..])
  }

  /** The own keys of an object in sorted order, with the values carried along. */
  function SortKeys(fields: seq<Field>): (r: seq<Field>)
    ensures multiset(r) == multiset(fields)
  {
    if fields == [] then []
    else
      assert fields == [fields[0]] + fields[1..];
      Insert(fields[0], SortKeys(fields[1..]))
  }

  lemma MultisetMember(a: seq<Field>, b: seq<Field>)
    requires multiset(a) == multiset(b)
    ensures |a| == |b|
    ensures forall f :: f in a <==> f in b
  {
    assert |multiset(a)| == |multiset(b)|;
    forall f ensures f in a <==> f in b {
      assert f in a <==> f in multiset(a);
      assert f in b <==> f in multiset(b);
    }
  }

  lemma {:induction false} InsertAscending(f: Field, sorted: seq<Field>)
    requires Ascending(sorted) && forall i | 0 <= i < |sorted| :: sorted[i].key != f.key
    ensures Ascending(Insert(f, sorted))
  {
    if sorted == [] {
    } else if !Less(sorted[0].key, f.key) {
      LessTotal(sorted[0].key, f.key);
      forall i | 0 <= i < |sorted| ensures Less(f.key, sorted[i].key) {
        if i > 0 {
          LessTransitive(f.key, sorted[0].key, sorted[i].key);
        }
      }
    } else {
      var rest := Insert(f, sorted[1..]);
      InsertAscending(f, sorted[1..]);
      assert multiset(rest) == multiset(sorted[1..] + [f]);
      MultisetMember(rest, sorted[1..] + [f]);
      forall j | 0 <= j < |rest| ensures Less(sorted[0].key, rest[j].key) {
        assert rest[j] in sorted[1..] + [f];
      }
    }
  }

  lemma {:induction false} SortKeysAscending(fields: seq<Field>)
    requires DistinctKeys(fields)
    ensures Ascending(SortKeys(fields))
  {
    if fields != [] {
      var rest := SortKeys(fields[1..]);
      SortKeysAscending(fields[1..]);
      MultisetMember(rest, fields[1..]);
      forall i | 0 <= i < |rest| ensures rest[i].key != fields[0].key {
        assert rest[i] in fields[1..];
      }
      InsertAscending(fields[0], rest);
    }
  }

  /** Two ascending lists with the same keys have them in the same places. */
  lemma {:induction false} AscendingKeysAgree(a: seq<Field>, b: seq<Field>)
    requires Ascending(a) && Ascending(b)
    requires forall i | 0 <= i < |a| :: HasKey(b, a[i].key)
    requires forall j | 0 <= j < |b| :: HasKey(a, b[j].key)
    ensures |a| == |b| && forall i | 0 <= i < |a| :: a[i].key == b[i].key
  {
    assert b != [] ==> HasKey(a, b[0].key);
    if a != [] {
      assert HasKey(b, a[0].key);
      LessTotal(a[0].key, b[0].key);
      assert a[0].key == b[0].key;
      KeysOfTail(a, b);
      KeysOfTail(b, a);
      AscendingKeysAgree(a[1..], b[1..]);
      forall i | 0 <= i < |a| ensures a[i].key == b[i].key {
        if i > 0 {
          assert a[1..][i - 1].key == b[1..][i - 1].key;
        }
      }
    }
  }

  ghost predicate HasKey(fields: seq<Field>, key: Text) {
    exists i | 0 <= i < |fields| :: fields[i].key == key
  }

  lemma KeysOfTail(a: seq<Field>, b: seq<Field>)
    requires a != [] && b != [] && a[0].key == b[0].key && Ascending(a) && Ascending(b)
    requires forall i | 0 <= i < |a| :: HasKey(b, a[i].key)
    ensures forall i | 0 <= i < |a| - 1 :: HasKey(b[1..], a[1..][i].key)
  {
    forall i | 0 <= i < |a| - 1 ensures HasKey(b[1..], a[1..][i].key) {
      assert HasKey(b, a[i + 1].key);
      var j :| 0 <= j < |b| && b[j].key == a[i + 1].key;
      LessTotal(a[0].key, a[i + 1].key);
      assert b[1..][j - 1].key == a[i + 1].key;
    }
  }

  // ---- Strings ----

  function HexDigit(n: int): Unit
    requires 0 <= n < 16
  {
    if n < 10 then 0x30 + n else 0x61 + n - 10
  }

  function HexValue(u: Unit): Option<int> {
    if 0x30 <= u <= 0x39 then Some(u - 0x30)
    else if 0x61 <= u <= 0x66 then Some(u - 0x61 + 10)
    else if 0x41 <= u <= 0x46 then Some(u - 0x41 + 10)
    else None
  }

  predicate IsHigh(u: Unit) {
    0xD800 <= u < 0xDC00
  }

  predicate IsLow(u: Unit) {
    0xDC00 <= u < 0xE000
  }

  function UnicodeEscape(u: Unit): Text {
    [BACKSLASH, LOWER_U, HexDigit(u / 0x1000), HexDigit(u / 0x100 % 16), HexDigit(u / 16 % 16), HexDigit(u % 16)]
  }

  /** The units that have a two-character escape, with its letter. */
  function ShortEscape(u: Unit): Option<Unit> {
    if u == QUOTE then Some(QUOTE)
    else if u == BACKSLASH then Some(BACKSLASH)
    else if u == 0x08 then Some(0x62)
    else if u == 0x0C then Some(0x66)
    else if u == 0x0A then Some(0x6E)
    else if u == 0x0D then Some(0x72)
    else if u == 0x09 then Some(0x74)
    else None
  }

  /** One unit of a quoted string.  A surrogate is escaped unless it is half of a pair. */
  function EscapeUnit(u: Unit, paired: bool): Text {
    match ShortEscape(u)
    case Some(letter) => [BACKSLASH, letter]
    case None =>
      if u < 0x20 || ((IsHigh(u) || IsLow(u)) && !paired) then UnicodeEscape(u) else [u]
  }

  predicate Paired(s: Text, i: nat)
    requires i < |s|
  {
    || (IsHigh(s[i]) && i + 1 < |s| && IsLow(s[i + 1]))
    || (IsLow(s[i]) && 0 < i && IsHigh(s[i - 1]))
  }

  function Escaped(s: Text, i: nat): Text
    requires i <= |s|
    decreases |s| - i
  {
    if i == |s| then [] else EscapeUnit(s[i], Paired(s, i)) + Escaped(s, i + 1)
  }

  /** JSON.stringify of a string. */
  function Quote(s: Text): Text {
    [QUOTE] + Escaped(s, 0) + [QUOTE]
  }

  // ---- Printing ----

  function Weight(v: Json): nat
    decreases v, 0
  {
    match v
    case Array(items) => 1 + ItemsWeight(items)
    case Object(fields) => 1 + FieldsWeight(fields)
    case _ => 1
  }

  function ItemsWeight(items: seq<Json>): nat
    decreases items, 1
  {
    if items == [] then 0 else Weight(items[0]) + ItemsWeight(items[1..])
  }

  function FieldsWeight(fields: seq<Field>): nat
    decreases fields, 1
  {
    if fields == [] then 0 else 1 + Weight(fields[0].value) + FieldsWeight(fields[1..])
  }

  lemma {:induction false} InsertWeight(f: Field, sorted: seq<Field>)
    ensures FieldsWeight(Insert(f, sorted)) == 1 + Weight(f.value) + FieldsWeight(sorted)
  {
    if sorted == [] || !Less(sorted[0].key, f.key) {
      assert ([f] + sorted)[1..] == sorted;
    } else {
      InsertWeight(f, sorted[1..]);
      assert ([sorted[0]] + Insert(f, sorted[1..]))[1..] == Insert(f, sorted[1..]);
    }
  }

  lemma {:induction false} SortKeysWeight(fields: seq<Field>)
    ensures FieldsWeight(SortKeys(fields)) == FieldsWeight(fields)
  {
    if fields != [] {
      SortKeysWeight(fields[1..]);
      InsertWeight(fields[0], SortKeys(fields[1..]));
    }
  }

  /** stableStringify. */
  function Stringify(v: Json): Text
    decreases Weight(v), 0
  {
    match v
    case Null => NULL
    case Bool(b) => if b then TRUE else FALSE
    case Number(digits) => digits
    case String(text) => Quote(text)
    case Array(items) => [OPEN_BRACKET] + JoinItems(items) + [CLOSE_BRACKET]
    case Object(fields) =>
      SortKeysWeight(fields);
      [OPEN_BRACE] + JoinFields(SortKeys(fields)) + [CLOSE_BRACE]
  }

  function JoinItems(items: seq<Json>): Text
    decreases ItemsWeight(items), 1
  {
    if items == [] then []
    else if |items| == 1 then Stringify(items[0])
    else Stringify(items[0]) + [COMMA] + JoinItems(items[1..])
  }

  function JoinFields(fields: seq<Field>): Text
    decreases FieldsWeight(fields), 1
  {
    if fields == [] then []
    else
      var first := Quote(fields[0].key) + [COLON] + Stringify(fields[0].value);
      if |fields| == 1 then first else first + [COMMA] + JoinFields(fields[1..])
  }

  // ---- Values up to key order ----

  /** An object built by assigning properties has each key once. */
  ghost predicate WellFormed(v: Json)
    decreases v
  {
    match v
    case Array(items) => forall i | 0 <= i < |items| :: WellFormed(items[i])
    case Object(fields) => DistinctKeys(fields) && forall i | 0 <= i < |fields| :: WellFormed(fields[i].value)
    case _ => true
  }

  /** Equal up to the order of object keys, at every depth. */
  ghost predicate Same(a: Json, b: Json)
    decreases a
  {
    match a
    case Array(items) =>
      b.Array? && |b.items| == |items| && forall i | 0 <= i < |items| :: Same(items[i], b.items[i])
    case Object(fields) =>
      && b.Object?
      && (forall i | 0 <= i < |fields| :: Matched(fields[i], b.fields))
      && (forall j | 0 <= j < |b.fields| :: HasKey(fields, b.fields[j].key))
    case _ => a == b
  }

  ghost predicate Matched(f: Field, others: seq<Field>)
    decreases f
  {
    exists j | 0 <= j < |others| :: f.key == others[j].key && Same(f.value, others[j].value)
  }

  lemma {:induction false} JoinItemsAgree(a: seq<Json>, b: seq<Json>)
    requires |a| == |b| && forall i | 0 <= i < |a| :: Stringify(a[i]) == Stringify(b[i])
    ensures JoinItems(a) == JoinItems(b)
  {
    if |a| > 1 {
      JoinItemsAgree(a[1..], b[1..]);
    }
  }

  lemma {:induction false} JoinFieldsAgree(a: seq<Field>, b: seq<Field>)
    requires |a| == |b|
    requires forall i | 0 <= i < |a| :: a[i].key == b[i].key && Stringify(a[i].value) == Stringify(b[i].value)
    ensures JoinFields(a) == JoinFields(b)
  {
    if |a| > 1 {
      JoinFieldsAgree(a[1..], b[1..]);
    }
  }

  /** Sorting brings the fields of two same objects to the same places. */
  lemma SortedFieldsAgree(a: seq<Field>, b: seq<Field>)
    requires DistinctKeys(a) && DistinctKeys(b) && Same(Object(a), Object(b))
    ensures var sa, sb := SortKeys(a), SortKeys(b);
            |sa| == |sb| && forall k | 0 <= k < |sa| ::
              && sa[k].key == sb[k].key && sa[k] in a && sb[k] in b
              && Same(sa[k].value, sb[k].value)
  {
    var sa, sb := SortKeys(a), SortKeys(b);
    SortKeysAscending(a);
    SortKeysAscending(b);
    MultisetMember(sa, a);
    MultisetMember(sb, b);
    forall k | 0 <= k < |sa| ensures HasKey(sb, sa[k].key) {
      assert sa[k] in a;
      var j :| 0 <= j < |b| && b[j].key == sa[k].key;
      assert b[j] in sb;
    }
    forall k | 0 <= k < |sb| ensures HasKey(sa, sb[k].key) {
      assert sb[k] in b;
      var j :| 0 <= j < |b| && b[j] == sb[k];
      assert HasKey(a, b[j].key);
      var i :| 0 <= i < |a| && a[i].key == b[j].key;
      assert a[i] in sa;
    }
    AscendingKeysAgree(sa, sb);
    forall k | 0 <= k < |sa| ensures sa[k] in a && sb[k] in b && Same(sa[k].value, sb[k].value) {
      assert sa[k] in a && sb[k] in b;
      var i :| 0 <= i < |a| && a[i] == sa[k];
      assert Matched(a[i], b);
      var j :| 0 <= j < |b| && b[j].key == a[i].key && Same(a[i].value, b[j].value);
      var j' :| 0 <= j' < |b| && b[j'] == sb[k];
      assert j == j';
    }
  }

  /** Values that differ only in the order of object keys print identically. */
  lemma {:induction false} SamePrintsSame(a: Json, b: Json)
    requires WellFormed(a) && WellFormed(b) && Same(a, b)
    ensures Stringify(a) == Stringify(b)
    decreases a
  {
    match a
    case Array(items) =>
      forall i | 0 <= i < |items| ensures Stringify(items[i]) == Stringify(b.items[i]) {
        SamePrintsSame(items[i], b.items[i]);
      }
      JoinItemsAgree(items, b.items);
    case Object(fields) =>
      var sa, sb := SortKeys(fields), SortKeys(b.fields);
      SortedFieldsAgree(fields, b.fields);
      forall k | 0 <= k < |sa| ensures Stringify(sa[k].value) == Stringify(sb[k].value) {
        var i :| 0 <= i < |fields| && fields[i] == sa[k];
        var j :| 0 <= j < |b.fields| && b.fields[j] == sb[k];
        SamePrintsSame(fields[i].value, b.fields[j].value);
      }
      JoinFieldsAgree(sa, sb);
    case _ =>
  }

  // ---- Reading back ----

  type Parsed<T> = Option<(T, Text)>

  function Hex4(t: Text): Option<Unit>
    requires |t| >= 4
  {
    match (HexValue(t[0]), HexValue(t[1]), HexValue(t[2]), HexValue(t[3]))
    case (Some(a), Some(b), Some(c), Some(d)) =>
      var n := a * 0x1000 + b * 0x100 + c * 16 + d;
      if 0 <= n < 0x1_0000 then Some(n) else None
    case _ => None
  }

  function Unescape(letter: Unit): Option<Unit> {
    if letter == QUOTE || letter == BACKSLASH || letter == 0x2F then Some(letter)
    else if letter == 0x62 then Some(0x08)
    else if letter == 0x66 then Some(0x0C)
    else if letter == 0x6E then Some(0x0A)
    else if letter == 0x72 then Some(0x0D)
    else if letter == 0x74 then Some(0x09)
    else None
  }

  /** One character of a JSON string, section 7 of RFC 8259. */
  function ParseUnit(t: Text): (r: Parsed<Unit>)
    ensures r.Some? ==> |r.value.1| < |t|
  {
    if t == [] || t[0] == QUOTE || t[0] < 0x20 then None
    else if t[0] != BACKSLASH then Some((t[0], t[1..]))
    else if |t| < 2 then None
    else if t[1] == LOWER_U then
      if |t| < 6 || Hex4(t[2..6]).None? then None else Some((Hex4(t[2..6]).value, t[6..]))
    else if Unescape(t[1]).None? then None
    else Some((Unescape(t[1]).value, t[2..]))
  }

  /** The characters of a string up to its closing quotation mark. */
  function ParseUnits(t: Text): (r: Parsed<Text>)
    ensures r.Some? ==> |r.value.1| < |t|
    decreases |t|
  {
    if t != [] && t[0] == QUOTE then Some(([], t[1..]))
    else
      match ParseUnit(t)
      case None => None
      case Some((u, more)) =>
        match ParseUnits(more)
        case None => None
        case Some((text, rest)) => Some(([u] + text, rest))
  }

  function ParseString(t: Text): (r: Parsed<Text>)
    ensures r.Some? ==> |r.value.1| < |t|
  {
    if t == [] || t[0] != QUOTE then None else ParseUnits(t[1..])
  }

  function NumberSpan(t: Text): (n: nat)
    ensures n <= |t| && forall i | 0 <= i < n :: IsNumberUnit(t[i])
  {
    if t == [] || !IsNumberUnit(t[0]) then 0 else 1 + NumberSpan(t[1..])
  }

  /** A JSON value without insignificant white space: objects by section 4, arrays by section 5. */
  function ParseValue(t: Text): (r: Parsed<Json>)
    ensures r.Some? ==> |r.value.1| < |t|
    decreases |t|, 0
  {
    if t == [] then None
    else if t[0] == QUOTE then
      match ParseString(t) case None => None case Some((text, rest)) => Some((String(text), rest))
    else if t[0] == OPEN_BRACKET then
      if |t| > 1 && t[1] == CLOSE_BRACKET then Some((Array([]), t[2..]))
      else match ParseItems(t[1..]) case None => None case Some((items, rest)) => Some((Array(items), rest))
    else if t[0] == OPEN_BRACE then
      if |t| > 1 && t[1] == CLOSE_BRACE then Some((Object([]), t[2..]))
      else match ParseFields(t[1..]) case None => None case Some((fields, rest)) => Some((Object(fields), rest))
    else if NULL <= t then Some((Null, t[|NULL|..]))
    else if TRUE <= t then Some((Bool(true), t[|TRUE|..]))
    else if FALSE <= t then Some((Bool(false), t[|FALSE|..]))
    else if IsDigit(t[0]) || t[0] == 0x2D then Some((Number(t[..NumberSpan(t)]), t[NumberSpan(t)..]))
    else None
  }

  function ParseItems(t: Text): (r: Parsed<seq<Json>>)
    ensures r.Some? ==> |r.value.1| < |t|
    decreases |t|, 1
  {
    match ParseValue(t)
    case None => None
    case Some((item, more)) =>
      if more == [] then None
      else if more[0] == CLOSE_BRACKET then Some(([item], more[1..]))
      else if more[0] != COMMA then None
      else match ParseItems(more[1..]) case None => None case Some((items, rest)) => Some(([item] + items, rest))
  }

  function ParseFields(t: Text): (r: Parsed<seq<Field>>)
    ensures r.Some? ==> |r.value.1| < |t|
    decreases |t|, 1
  {
    match ParseString(t)
    case None => None
    case Some((key, afterKey)) =>
      if afterKey == [] || afterKey[0] != COLON then None
      else
        match ParseValue(afterKey[1..])
        case None => None
        case Some((value, more)) =>
          if more == [] then None
          else if more[0] == CLOSE_BRACE then Some(([Field(key, value)], more[1..]))
          else if more[0] != COMMA then None
          else match ParseFields(more[1..]) case None =>
              None case Some((fields, rest)) => Some(([Field(key, value)] + fields, rest))
  }

  /** The value with all object keys in sorted order. */
  function Canon(v: Json): Json
    decreases Weight(v), 0
  {
    match v
    case Array(items) => Array(CanonItems(items))
    case Object(fields) =>
      SortKeysWeight(fields);
      Object(CanonFields(SortKeys(fields)))
    case _ => v
  }

  function CanonItems(items: seq<Json>): seq<Json>
    decreases ItemsWeight(items), 1
  {
    if items == [] then [] else [Canon(items[0])] + CanonItems(items[1..])
  }

  function CanonFields(fields: seq<Field>): seq<Field>
    decreases FieldsWeight(fields), 1
  {
    if fields == [] then [] else [Field(fields[0].key, Canon(fields[0].value))] + CanonFields(fields[1..])
  }

  lemma ReadsUnit(u: Unit, paired: bool, rest: Text)
    ensures ParseUnit(EscapeUnit(u, paired) + rest) == Some((u, rest))
    ensures EscapeUnit(u, paired)[0] != QUOTE
  {
    var e := EscapeUnit(u, paired);
    assert (e + rest)[|e|..] == rest;
    if e == UnicodeEscape(u) && |e| == 6 {
      assert (e + rest)[2..6] == e[2..6];
      HexReads(u);
    }
  }

  lemma HexReads(u: Unit)
    ensures Hex4(UnicodeEscape(u)[2..6]) == Some(u)
  {
    var a, b, c, d := u / 0x1000, u / 0x100 % 16, u / 16 % 16, u % 16;
    HexParts(u);
    HexDigitReads(a);
    HexDigitReads(b);
    HexDigitReads(c);
    HexDigitReads(d);
    var digits := UnicodeEscape(u)[2..6];
    assert digits[0] == HexDigit(a) && digits[1] == HexDigit(b) && digits[2] == HexDigit(c) && digits[3] == HexDigit(d);
  }

  lemma HexParts(u: int)
    requires 0 <= u < 0x1_0000
    ensures u == u / 0x1000 * 0x1000 + u / 0x100 % 16 * 0x100 + u / 16 % 16 * 16 + u % 16
  {
    var q := u / 16;
    DivTwice(u, 16, 16);
    DivTwice(u, 0x100, 16);
    SplitDigit(u);
    SplitDigit(q);
    SplitDigit(q / 16);
  }

  lemma SplitDigit(x: int)
    ensures x == x / 16 * 16 + x % 16
  {
  }

  /** Dividing twice is dividing by the product. */
  lemma DivTwice(x: int, a: int, b: int)
    requires 0 <= x && (a == 16 || a == 0x100) && b == 16
    ensures x / a / b == x / (a * b)
  {
  }

  lemma HexDigitReads(n: int)
    requires 0 <= n < 16
    ensures HexValue(HexDigit(n)) == Some(n)
  {
  }

  lemma {:induction false} ReadsUnits(s: Text, i: nat, rest: Text)
    requires i <= |s|
    ensures ParseUnits(Escaped(s, i) + [QUOTE] + rest) == Some((s[i..], rest))
    decreases |s| - i
  {
    var t := Escaped(s, i) + [QUOTE] + rest;
    if i == |s| {
      assert t[1..] == rest && s[i..] == [];
    } else {
      var e, more := EscapeUnit(s[i], Paired(s, i)), Escaped(s, i + 1) + [QUOTE] + rest;
      assert t == e + more;
      ReadsUnit(s[i], Paired(s, i), more);
      ReadsUnits(s, i + 1, rest);
      assert s[i..] == [s[i]] + s[i + 1..];
    }
  }

  lemma ReadsString(s: Text, rest: Text)
    ensures ParseString(Quote(s) + rest) == Some((s, rest))
  {
    ReadsUnits(s, 0, rest);
    assert (Quote(s) + rest)[1..] == Escaped(s, 0) + [QUOTE] + rest;
    assert s[0..] == s;
  }

  // ---- How characters are written ----

  predicate IsSurrogate(u: Unit) {
    IsHigh(u) || IsLow(u)
  }

  /** Hexadecimal digits in lower case, in a \u escape. */
  predicate LowerHex(t: Text) {
    |t| == 6 ==> forall k | 2 <= k < 6 :: !(0x41 <= t[k] <= 0x46)
  }

  /** Of all the ways to write a character that a reader accepts, half of a surrogate pair aside, it is written in
      the shortest, with hexadecimal digits in lower case; there is no other such way. */
  lemma WrittenShortest(u: Unit, paired: bool, t: Text)
    requires ParseUnit(t) == Some((u, [])) && (|t| == 1 ==> !IsSurrogate(u) || paired)
    ensures |EscapeUnit(u, paired)| == 1 ==> !IsSurrogate(u) || paired
    ensures LowerHex(EscapeUnit(u, paired)) && |EscapeUnit(u, paired)| <= |t|
    ensures |t| == |EscapeUnit(u, paired)| && LowerHex(t) ==> t == EscapeUnit(u, paired)
  {
    if ShortEscape(u).Some? {
      ShortWritten(u, t);
    } else {
      ReadLength(t, u);
      if |t| != 1 && (u < 0x20 || IsSurrogate(u)) {
        LongWritten(u, t);
      }
      LowerDigits(u);
    }
  }

  /** A reader takes one, two or six characters for one. */
  lemma ReadLength(t: Text, u: Unit)
    requires ParseUnit(t) == Some((u, []))
    ensures |t| == 1 || |t| == 2 || |t| == 6
    ensures |t| == 1 ==> t == [u] && u != QUOTE && u != BACKSLASH && u >= 0x20
    ensures |t| == 2 ==> t[0] == BACKSLASH && Unescape(t[1]) == Some(u)
    ensures |t| == 6 ==> t[0] == BACKSLASH && t[1] == LOWER_U && Hex4(t[2..6]) == Some(u)
  {
  }

  lemma ShortWritten(u: Unit, t: Text)
    requires ParseUnit(t) == Some((u, [])) && ShortEscape(u).Some?
    ensures |t| >= 2 && (|t| == 2 ==> t == [BACKSLASH, ShortEscape(u).value])
  {
    ReadLength(t, u);
  }

  lemma LongWritten(u: Unit, t: Text)
    requires ParseUnit(t) == Some((u, [])) && ShortEscape(u).None? && |t| != 1 && (u < 0x20 || IsSurrogate(u))
    ensures |t| == 6 && (LowerHex(t) ==> t == UnicodeEscape(u))
  {
    ReadLength(t, u);
    assert |t| == 6;
    if LowerHex(t) {
      HexReads(u);
      LowerDigits(u);
      SameDigits(t[2..6], UnicodeEscape(u)[2..6]);
      assert t == [BACKSLASH, LOWER_U] + t[2..6];
      assert UnicodeEscape(u) == [BACKSLASH, LOWER_U] + UnicodeEscape(u)[2..6];
    }
  }

  lemma LowerDigits(u: Unit)
    ensures LowerHex(UnicodeEscape(u))
  {
  }

  /** A digit that is not an upper-case letter is determined by its value. */
  lemma SameDigit(a: Unit, b: Unit)
    requires HexValue(a).Some? && HexValue(a) == HexValue(b) && !(0x41 <= a <= 0x46) && !(0x41 <= b <= 0x46)
    ensures a == b
  {
  }

  lemma DigitsFromValue(a: int, b: int, c: int, d: int, x: int, y: int, z: int, w: int)
    requires 0 <= a < 16 && 0 <= b < 16 && 0 <= c < 16 && 0 <= d < 16
    requires 0 <= x < 16 && 0 <= y < 16 && 0 <= z < 16 && 0 <= w < 16
    requires a * 0x1000 + b * 0x100 + c * 16 + d == x * 0x1000 + y * 0x100 + z * 16 + w
    ensures a == x && b == y && c == z && d == w
  {
  }

  lemma HexValueBelow16(u: Unit)
    ensures HexValue(u).Some? ==> 0 <= HexValue(u).value < 16
  {
  }

  /** Four lower-case digits are determined by their value. */
  lemma SameDigits(a: Text, b: Text)
    requires |a| == |b| == 4 && Hex4(a).Some? && Hex4(a) == Hex4(b)
    requires forall k | 0 <= k < 4 :: !(0x41 <= a[k] <= 0x46) && !(0x41 <= b[k] <= 0x46)
    ensures a == b
  {
    forall k | 0 <= k < 4
      ensures 0 <= HexValue(a[k]).value < 16 && 0 <= HexValue(b[k]).value < 16
    {
      HexValueBelow16(a[k]);
      HexValueBelow16(b[k]);
    }
    DigitsFromValue(HexValue(a[0]).value, HexValue(a[1]).value, HexValue(a[2]).value, HexValue(a[3]).value,
                    HexValue(b[0]).value, HexValue(b[1]).value, HexValue(b[2]).value, HexValue(b[3]).value);
    forall k | 0 <= k < 4 ensures a[k] == b[k] {
      SameDigit(a[k], b[k]);
    }
  }

  /** Text in which surrogates occur in pairs only, read from the left. */
  predicate WellFormedText(t: Text) {
    || t == []
    || (!IsSurrogate(t[0]) && WellFormedText(t[1..]))
    || (|t| > 1 && IsHigh(t[0]) && IsLow(t[1]) && WellFormedText(t[2..]))
  }

  lemma {:induction false} PlainPrefix(a: Text, b: Text)
    requires WellFormedText(b) && forall k | 0 <= k < |a| :: !IsSurrogate(a[k])
    ensures WellFormedText(a + b)
  {
    if a == [] {
      assert a + b == b;
    } else {
      PlainPrefix(a[1..], b);
      assert (a + b)[1..] == a[1..] + b;
    }
  }

  /** An escape consists of plain characters, and so does any character that is not a surrogate. */
  lemma EscapePlain(u: Unit, paired: bool)
    requires !IsSurrogate(u) || !paired
    ensures forall k | 0 <= k < |EscapeUnit(u, paired)| :: !IsSurrogate(EscapeUnit(u, paired)[k])
  {
  }

  lemma PairKept(high: Unit, low: Unit, rest: Text)
    requires IsHigh(high) && IsLow(low) && WellFormedText(rest)
    ensures WellFormedText(EscapeUnit(high, true) + (EscapeUnit(low, true) + rest))
  {
    var t := EscapeUnit(high, true) + (EscapeUnit(low, true) + rest);
    assert t[0] == high && t[1] == low && t[2..] == rest;
  }

  lemma {:induction false} EscapedWellFormed(s: Text, i: nat)
    requires i <= |s| && (0 < i < |s| ==> !(IsHigh(s[i - 1]) && IsLow(s[i])))
    ensures WellFormedText(Escaped(s, i) + [QUOTE])
    decreases |s| - i
  {
    if i == |s| {
      assert [] + [QUOTE] == [QUOTE];
    } else if i + 1 < |s| && IsHigh(s[i]) && IsLow(s[i + 1]) {
      EscapedWellFormed(s, i + 2);
      var rest := Escaped(s, i + 2) + [QUOTE];
      PairKept(s[i], s[i + 1], rest);
      assert Escaped(s, i) + [QUOTE] == EscapeUnit(s[i], true) + (EscapeUnit(s[i + 1], true) + rest);
    } else {
      EscapedWellFormed(s, i + 1);
      var e, rest := EscapeUnit(s[i], Paired(s, i)), Escaped(s, i + 1) + [QUOTE];
      EscapePlain(s[i], Paired(s, i));
      PlainPrefix(e, rest);
      assert Escaped(s, i) + [QUOTE] == e + rest;
    }
  }

  /** A quoted string is well-formed text, whatever surrogates the string has. */
  lemma QuoteWellFormed(s: Text)
    ensures WellFormedText(Quote(s))
  {
    EscapedWellFormed(s, 0);
    PlainPrefix([QUOTE], Escaped(s, 0) + [QUOTE]);
    assert [QUOTE] + (Escaped(s, 0) + [QUOTE]) == Quote(s);
  }

  /** Neither a quotation mark, nor a backslash, nor a control character. */
  predicate NeedsNoEscape(u: Unit) {
    u != QUOTE && u != BACKSLASH && u >= 0x20
  }

  lemma {:induction false} PlainEscaped(s: Text, i: nat)
    requires i <= |s| && WellFormedText(s[i..]) && forall k | 0 <= k < |s| :: NeedsNoEscape(s[k])
    ensures Escaped(s, i) == s[i..]
    decreases |s| - i
  {
    if i < |s| {
      if IsSurrogate(s[i]) {
        assert s[i..][0] == s[i] && s[i..][1] == s[i + 1] && s[i..][2..] == s[i + 2..];
        PlainEscaped(s, i + 2);
        assert Escaped(s, i + 1) == [s[i + 1]] + s[i + 2..];
        assert s[i..] == [s[i]] + ([s[i + 1]] + s[i + 2..]);
      } else {
        assert s[i..][1..] == s[i + 1..];
        PlainEscaped(s, i + 1);
        assert s[i..] == [s[i]] + s[i + 1..];
      }
    }
  }

  /** Well-formed text that has nothing to escape is quoted as it is, pairs of surrogates included. */
  lemma PlainTextUnchanged(s: Text)
    requires WellFormedText(s) && forall k | 0 <= k < |s| :: NeedsNoEscape(s[k])
    ensures Quote(s) == [QUOTE] + s + [QUOTE]
  {
    assert s[0..] == s;
    PlainEscaped(s, 0);
  }

  // ---- Reading values back ----

  /** What may follow a value: not a character that could continue a number. */
  predicate Delimited(rest: Text) {
    rest == [] || !IsNumberUnit(rest[0])
  }

  lemma {:induction false} ReadsDigits(digits: Text, rest: Text)
    requires Delimited(rest) && forall i | 0 <= i < |digits| :: IsNumberUnit(digits[i])
    ensures NumberSpan(digits + rest) == |digits|
  {
    if digits == [] {
      assert digits + rest == rest;
    } else {
      assert (digits + rest)[1..] == digits[1..] + rest;
      ReadsDigits(digits[1..], rest);
    }
  }

  /** No value starts with a closing bracket or brace. */
  lemma StartsValue(v: Json)
    ensures Stringify(v) != [] && Stringify(v)[0] != CLOSE_BRACKET && Stringify(v)[0] != CLOSE_BRACE
  {
  }

  lemma ArrayStep(t: Text, items: seq<Json>, rest: Text)
    requires |t| > 1 && t[0] == OPEN_BRACKET
    requires if items == [] then t[1] == CLOSE_BRACKET && t[2..] == rest
             else t[1] != CLOSE_BRACKET && ParseItems(t[1..]) == Some((items, rest))
    ensures ParseValue(t) == Some((Array(items), rest))
  {
  }

  lemma ObjectStep(body: Text, fields: seq<Field>, rest: Text)
    requires body == [] <==> fields == []
    requires body != [] ==> body[0] != CLOSE_BRACE && ParseFields(body + [CLOSE_BRACE] + rest) == Some((fields, rest))
    ensures ParseValue([OPEN_BRACE] + body + [CLOSE_BRACE] + rest) == Some((Object(fields), rest))
  {
    var t := [OPEN_BRACE] + body + [CLOSE_BRACE] + rest;
    assert body == [] ==> t[2..] == rest;
    assert t[1..] == body + [CLOSE_BRACE] + rest;
  }

  /** After the first item: a closing bracket, or a comma and the other items. */
  lemma ItemStep(t: Text, item: Json, more: Text, items: seq<Json>, rest: Text)
    requires ParseValue(t) == Some((item, more)) && more != []
    requires if items == [] then more[0] == CLOSE_BRACKET && more[1..] == rest
             else more[0] == COMMA && ParseItems(more[1..]) == Some((items, rest))
    ensures ParseItems(t) == Some(([item] + items, rest))
  {
    assert items == [] ==> [item] + items == [item];
  }

  lemma FieldStep(t: Text, key: Text, afterKey: Text, value: Json, more: Text, fields: seq<Field>, rest: Text)
    requires ParseString(t) == Some((key, afterKey)) && afterKey != [] && afterKey[0] == COLON
    requires ParseValue(afterKey[1..]) == Some((value, more)) && more != []
    requires if fields == [] then more[0] == CLOSE_BRACE && more[1..] == rest
             else more[0] == COMMA && ParseFields(more[1..]) == Some((fields, rest))
    ensures ParseFields(t) == Some(([Field(key, value)] + fields, rest))
  {
    assert fields == [] ==> [Field(key, value)] + fields == [Field(key, value)];
  }

  /** Reading back what was printed, followed by anything that delimits a value, gives the value with its
      keys sorted, and leaves exactly the rest. */
  lemma {:induction false} ReadsValue(v: Json, rest: Text)
    requires Delimited(rest)
    ensures ParseValue(Stringify(v) + rest) == Some((Canon(v), rest))
    decreases Weight(v), 0
  {
    match v
    case Null => ReadsNull(rest);
    case Bool(b) => ReadsBool(b, rest);
    case Number(digits) => ReadsNumber(digits, rest);
    case String(text) => ReadsText(text, rest);
    case Array(items) => ReadsArray(items, rest);
    case Object(fields) => ReadsObject(fields, rest);
  }

  lemma {:induction false} ReadsArray(items: seq<Json>, rest: Text)
    ensures ParseValue(Stringify(Array(items)) + rest) == Some((Canon(Array(items)), rest))
    decreases ItemsWeight(items), 2
  {
    var t := Stringify(Array(items)) + rest;
    if items == [] {
      assert t[2..] == rest;
    } else {
      ReadsItems(items, rest);
      assert t[1..] == JoinItems(items) + [CLOSE_BRACKET] + rest;
      assert t[1] != CLOSE_BRACKET;
    }
    ArrayStep(t, CanonItems(items), rest);
  }

  lemma {:induction false} ReadsObject(fields: seq<Field>, rest: Text)
    ensures ParseValue(Stringify(Object(fields)) + rest) == Some((Canon(Object(fields)), rest))
    decreases FieldsWeight(fields), 3
  {
    SortKeysWeight(fields);
    ReadsSorted(SortKeys(fields), rest);
  }

  lemma {:induction false} ReadsSorted(sorted: seq<Field>, rest: Text)
    ensures ParseValue([OPEN_BRACE] + JoinFields(sorted) + [CLOSE_BRACE] + rest)
         == Some((Object(CanonFields(sorted)), rest))
    decreases FieldsWeight(sorted), 2
  {
    if sorted != [] {
      ReadsFields(sorted, rest);
    }
    ObjectStep(JoinFields(sorted), CanonFields(sorted), rest);
  }

  lemma ReadsNull(rest: Text)
    ensures ParseValue(Stringify(Null) + rest) == Some((Null, rest))
  {
  }

  lemma ReadsText(text: Text, rest: Text)
    ensures ParseValue(Stringify(String(text)) + rest) == Some((String(text), rest))
  {
    ReadsString(text, rest);
    assert (Quote(text) + rest)[0] == QUOTE;
  }

  lemma ReadsBool(b: bool, rest: Text)
    ensures ParseValue(Stringify(Bool(b)) + rest) == Some((Bool(b), rest))
  {
  }

  lemma ReadsNumber(digits: NumberText, rest: Text)
    requires Delimited(rest)
    ensures ParseValue(Stringify(Number(digits)) + rest) == Some((Number(digits), rest))
  {
    ReadsDigits(digits, rest);
    assert (digits + rest)[|digits|..] == rest && (digits + rest)[..|digits|] == digits;
  }

  lemma {:induction false} ReadsItems(items: seq<Json>, rest: Text)
    requires items != []
    ensures ParseItems(JoinItems(items) + [CLOSE_BRACKET] + rest) == Some((CanonItems(items), rest))
    ensures JoinItems(items) != [] && JoinItems(items)[0] != CLOSE_BRACKET
    decreases ItemsWeight(items), 1
  {
    var tail := items[1..];
    var more := if tail == [] then [CLOSE_BRACKET] + rest else [COMMA] + (JoinItems(tail) + [CLOSE_BRACKET] + rest);
    assert JoinItems(items) + [CLOSE_BRACKET] + rest == Stringify(items[0]) + more;
    StartsValue(items[0]);
    ReadsValue(items[0], more);
    if tail == [] {
      assert more[1..] == rest;
    } else {
      ReadsItems(tail, rest);
      assert more[1..] == JoinItems(tail) + [CLOSE_BRACKET] + rest;
    }
    ItemStep(Stringify(items[0]) + more, Canon(items[0]), more, CanonItems(tail), rest);
  }

  lemma FieldsText(fields: seq<Field>, more: Text, rest: Text)
    requires fields != []
    requires more == if fields[1..] == [] then [CLOSE_BRACE] + rest
                     else [COMMA] + (JoinFields(fields[1..]) + [CLOSE_BRACE] + rest)
    ensures JoinFields(fields) + [CLOSE_BRACE] + rest
         == Quote(fields[0].key) + ([COLON] + (Stringify(fields[0].value) + more))
  {
    var key, value := Quote(fields[0].key), Stringify(fields[0].value);
    var first := key + [COLON] + value;
    assert first + more == key + ([COLON] + (value + more));
    if fields[1..] == [] {
      assert first + [CLOSE_BRACE] + rest == first + more;
    } else {
      Regroup(first, [COMMA], JoinFields(fields[1..]), [CLOSE_BRACE], rest);
    }
  }

  lemma Regroup(a: Text, b: Text, c: Text, d: Text, e: Text)
    ensures (a + b + c) + d + e == a + (b + (c + d + e))
  {
  }

  lemma {:induction false} ReadsFields(fields: seq<Field>, rest: Text)
    requires fields != []
    ensures ParseFields(JoinFields(fields) + [CLOSE_BRACE] + rest) == Some((CanonFields(fields), rest))
    ensures JoinFields(fields) != [] && JoinFields(fields)[0] == QUOTE
    decreases FieldsWeight(fields), 1
  {
    var f, tail := fields[0], fields[1..];
    var more := if tail == [] then [CLOSE_BRACE] + rest else [COMMA] + (JoinFields(tail) + [CLOSE_BRACE] + rest);
    var afterKey := [COLON] + (Stringify(f.value) + more);
    FieldsText(fields, more, rest);
    ReadsString(f.key, afterKey);
    assert afterKey[1..] == Stringify(f.value) + more;
    ReadsValue(f.value, more);
    if tail == [] {
      assert more[1..] == rest;
    } else {
      ReadsFields(tail, rest);
      assert more[1..] == JoinFields(tail) + [CLOSE_BRACE] + rest;
    }
    FieldStep(Quote(f.key) + afterKey, f.key, afterKey, Canon(f.value), more, CanonFields(tail), rest);
  }

  lemma {:induction false} CanonItemsAt(items: seq<Json>, i: nat)
    requires i < |items|
    ensures |CanonItems(items)| == |items| && CanonItems(items)[i] == Canon(items[i])
  {
    if |items| > 1 {
      CanonItemsAt(items[1..], if i == 0 then 0 else i - 1);
    }
  }

  lemma {:induction false} CanonFieldsAt(fields: seq<Field>, i: nat)
    requires i < |fields|
    ensures |CanonFields(fields)| == |fields|
    ensures CanonFields(fields)[i] == Field(fields[i].key, Canon(fields[i].value))
  {
    if |fields| > 1 {
      CanonFieldsAt(fields[1..], if i == 0 then 0 else i - 1);
    }
  }

  /** Sorted objects that agree have the same fields, up to key order inside the values. */
  lemma CanonFieldsAgree(a: seq<Field>, b: seq<Field>, i: nat) returns (j: nat)
    requires i < |a| && CanonFields(SortKeys(a)) == CanonFields(SortKeys(b))
    ensures j < |b| && a[i].key == b[j].key && Canon(a[i].value) == Canon(b[j].value)
  {
    var sa, sb := SortKeys(a), SortKeys(b);
    MultisetMember(sa, a);
    MultisetMember(sb, b);
    assert a[i] in sa;
    var k :| 0 <= k < |sa| && sa[k] == a[i];
    CanonFieldsAt(sa, k);
    if sb != [] {
      CanonFieldsAt(sb, 0);
    }
    CanonFieldsAt(sb, k);
    assert sb[k] in b;
    j :| 0 <= j < |b| && b[j] == sb[k];
  }

  lemma {:induction false} SameFromCanon(a: Json, b: Json)
    requires Canon(a) == Canon(b)
    ensures Same(a, b)
    decreases a
  {
    CanonShape(a);
    CanonShape(b);
    if a.Array? {
      SameItemsFromCanon(a.items, b.items);
    } else if a.Object? {
      SameFieldsFromCanon(a.fields, b.fields);
    }
  }

  /** Sorting keys changes no value's kind, and nothing but arrays and objects. */
  lemma CanonShape(v: Json)
    ensures Canon(v).Array? <==> v.Array?
    ensures Canon(v).Object? <==> v.Object?
    ensures !v.Array? && !v.Object? ==> Canon(v) == v
  {
  }

  lemma {:induction false} SameItemsFromCanon(a: seq<Json>, b: seq<Json>)
    requires Canon(Array(a)) == Canon(Array(b))
    ensures Same(Array(a), Array(b))
    decreases a
  {
    if a != [] {
      CanonItemsAt(a, 0);
    }
    if b != [] {
      CanonItemsAt(b, 0);
    }
    forall i | 0 <= i < |a| ensures Same(a[i], b[i]) {
      CanonItemsAt(a, i);
      CanonItemsAt(b, i);
      SameFromCanon(a[i], b[i]);
    }
  }

  lemma {:induction false} SameFieldsFromCanon(a: seq<Field>, b: seq<Field>)
    requires Canon(Object(a)) == Canon(Object(b))
    ensures Same(Object(a), Object(b))
    decreases a
  {
    forall i | 0 <= i < |a| ensures Matched(a[i], b) {
      var j := CanonFieldsAgree(a, b, i);
      SameFromCanon(a[i].value, b[j].value);
    }
    forall j | 0 <= j < |b| ensures HasKey(a, b[j].key) {
      var i := CanonFieldsAgree(b, a, j);
    }
  }

  /** The printed text is a canonical form: two request bodies print the same exactly when they are equal up
      to the order of their object keys. */
  lemma CanonicalForm(a: Json, b: Json)
    requires WellFormed(a) && WellFormed(b)
    ensures Stringify(a) == Stringify(b) <==> Same(a, b)
  {
    if Same(a, b) {
      SamePrintsSame(a, b);
    }
    if Stringify(a) == Stringify(b) {
      ReadsValue(a, []);
      ReadsValue(b, []);
      SameFromCanon(a, b);
    }
  }
}
