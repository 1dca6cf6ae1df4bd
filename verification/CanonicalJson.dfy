/** The canonical form of JSON values: sorted fields, and a printer that loses nothing. */
module CanonicalJson {
  import opened Text
  import opened Evaluation
  import J = JsonTokens

  /** A decoded value; numbers keep their text. */
  datatype Json =
    | Null | Bool(value: bool) | Number(text: string) | String(s: string) | Array(items: seq<Json>) | Object(fields: map<string, Json>)

  predicate IsNumber(text: string) {
    text != "" && (IsDigit(text[0]) || text[0] == '-') && forall i | 0 <= i < |text| :: WordChar(text[i])
  }

  /** A character that may occur in a number or a literal name. */
  predicate WordChar(c: char) {
    IsDigit(c) || 'a' <= c <= 'z' || c == 'E' || c == '-' || c == '+' || c == '.'
  }

  ghost predicate Valid(v: Json)
    decreases v
  {
    match v
    case Number(text) => IsNumber(text)
    case Array(items) => forall i | 0 <= i < |items| :: Valid(items[i])
    case Object(fields) => forall k | k in fields :: Valid(fields[k])
    case _ => true
  }

  // ---------------------------------------------------------------- Sorted keys

  ghost predicate Ascending(keys: seq<string>) {
    forall i, j | 0 <= i < j < |keys| :: Less(keys[i], keys[j])
  }

  ghost predicate Lists(order: seq<string>, keys: set<string>) {
    Ascending(order) && forall k :: k in order <==> k in keys
  }

  function InsertKey(key: string, sorted: seq<string>): seq<string> {
    if sorted == [] || Less(key, sorted[0]) then [key] + sorted else [sorted[0]] + InsertKey(key, sorted[1..])
  }

  /** sort.Strings. */
  function SortStrings(keys: seq<string>): seq<string> {
    if keys == [] then [] else InsertKey(keys[|keys| - 1], SortStrings(keys[..|keys| - 1]))
  }

  lemma {:induction false} InsertKeyKeeps(key: string, sorted: seq<string>)
    requires Ascending(sorted) && key !in sorted
    ensures Ascending(InsertKey(key, sorted))
    ensures forall k :: k in InsertKey(key, sorted) <==> k == key || k in sorted
  {
    if sorted != [] {
      assert sorted == [sorted[0]] + sorted[1..];
      if Less(key, sorted[0]) {
        forall j | 1 <= j < |sorted| ensures Less(key, sorted[j]) { LessTransitive(key, sorted[0], sorted[j]); }
      } else {
        InsertKeyKeeps(key, sorted[1..]);
        LessTotal(key, sorted[0]);
        var rest := InsertKey(key, sorted[1..]);
        forall j | 0 <= j < |rest| ensures Less(sorted[0], rest[j]) {
          assert rest[j] in rest;
          if rest[j] != key {
            var i :| 0 <= i < |sorted[1..]| && sorted[1..][i] == rest[j];
          }
        }
      }
    }
  }

  lemma {:induction false} SortStringsSorts(keys: seq<string>)
    requires forall i, j | 0 <= i < j < |keys| :: keys[i] != keys[j]
    ensures Ascending(SortStrings(keys)) && forall k :: k in SortStrings(keys) <==> k in keys
  {
    if keys != [] {
      var earlier, last := keys[..|keys| - 1], keys[|keys| - 1];
      SortStringsSorts(earlier);
      assert keys == earlier + [last];
      InsertKeyKeeps(last, SortStrings(earlier));
    }
  }

  lemma ListsHead(a: seq<string>, b: seq<string>, keys: set<string>)
    requires Lists(a, keys) && Lists(b, keys) && a != []
    ensures b != [] && a[0] == b[0]
  {
    assert a[0] in keys && a[0] in b;
    assert b[0] in keys && b[0] in a;
    if a[0] != b[0] {
      LessTransitive(a[0], b[0], a[0]);
      LessIrreflexive(a[0]);
    }
  }

  lemma ListsTail(a: seq<string>, keys: set<string>)
    requires Lists(a, keys) && a != []
    ensures Lists(a[1..], keys - {a[0]})
  {
    LessIrreflexive(a[0]);
    forall k ensures k in a[1..] <==> k in keys - {a[0]} {
      if k in keys - {a[0]} {
        var i :| 0 <= i < |a| && a[i] == k;
        assert a[1..][i - 1] == k;
      }
      if k in a[1..] {
        var i :| 0 <= i < |a[1..]| && a[1..][i] == k;
        assert a[i + 1] == k && Less(a[0], a[i + 1]);
        assert k in a;
      }
    }
  }

  /** A set of keys has one sorted listing. */
  lemma {:induction false} ListsUnique(a: seq<string>, b: seq<string>, keys: set<string>)
    requires Lists(a, keys) && Lists(b, keys)
    ensures a == b
  {
    if a == [] {
      if b != [] {
        ListsHead(b, a, keys);
      }
    } else {
      ListsHead(a, b, keys);
      ListsTail(a, keys);
      ListsTail(b, keys);
      ListsUnique(a[1..], b[1..], keys - {a[0]});
      assert a == [a[0]] + a[1..] && b == [b[0]] + b[1..];
    }
  }

  lemma {:induction false} ListingExists(keys: set<string>) returns (order: seq<string>)
    ensures Lists(order, keys)
    decreases |keys|
  {
    if keys == {} {
      order := [];
    } else {
      var k :| k in keys;
      var others := ListingExists(keys - {k});
      InsertKeyKeeps(k, others);
      order := InsertKey(k, others);
    }
  }

  ghost function SortedKeys(keys: set<string>): (order: seq<string>)
    ensures Lists(order, keys)
  {
    assert exists order :: Lists(order, keys) by { var order := ListingExists(keys); }
    var order :| Lists(order, keys);
    order
  }

  // ---------------------------------------------------------------- Writing and reading values

  /** The tree that is printed: fields in key order. */
  ghost function TreeOf(v: Json): J.Tree
    decreases v
  {
    match v
    case Null => J.Scalar("null")
    case Bool(b) => J.Scalar(if b then "true" else "false")
    case Number(text) => J.Scalar(text)
    case String(s) => J.Text(s)
    case Array(items) => J.Arr(seq(|items|, i requires 0 <= i < |items| => TreeOf(items[i])))
    case Object(fields) =>
      var keys := SortedKeys(fields.Keys);
      J.Obj(seq(|keys|, i requires 0 <= i < |keys| => assert keys[i] in keys; J.Field(keys[i], TreeOf(fields[keys[i]]))))
  }

  /** The canonical token sequence of a value. */
  ghost function Canonical(v: Json): seq<J.Tok> {
    J.Tokens(TreeOf(v))
  }

  /** What decoding makes of a tree: of repeated fields the last one stays. */
  function ValueOf(t: J.Tree): Json
    decreases t
  {
    match t
    case Text(s) => String(s)
    case Scalar(word) =>
      if word == "null" then Null else if word == "true" then Bool(true) else if word == "false" then Bool(false) else Number(word)
    case Arr(items) => Array(seq(|items|, i requires 0 <= i < |items| => ValueOf(items[i])))
    case Obj(fields) => Object(FieldMap(fields))
  }

  function FieldMap(fields: seq<J.Field>): map<string, Json>
    decreases fields
  {
    if fields == [] then map[]
    else FieldMap(fields[..|fields| - 1])[fields[|fields| - 1].name := ValueOf(fields[|fields| - 1].value)]
  }

  lemma {:induction false} FieldMapNames(fields: seq<J.Field>)
    ensures forall k :: k in FieldMap(fields) <==> exists i :: 0 <= i < |fields| && fields[i].name == k
  {
    if fields != [] {
      var earlier := fields[..|fields| - 1];
      FieldMapNames(earlier);
      forall k | k in FieldMap(earlier) ensures exists i :: 0 <= i < |fields| && fields[i].name == k {
        var i :| 0 <= i < |earlier| && earlier[i].name == k;
        assert fields[i].name == k;
      }
    }
  }

  lemma {:induction false} FieldMapValues(fields: seq<J.Field>)
    requires J.DistinctFields(fields)
    ensures forall i | 0 <= i < |fields| :: fields[i].name in FieldMap(fields) && FieldMap(fields)[fields[i].name] == ValueOf(fields[i].value)
  {
    if fields != [] {
      FieldMapValues(fields[..|fields| - 1]);
    }
  }

  lemma SortedFieldsAreDistinct(v: Json)
    requires v.Object?
    ensures J.DistinctFields(TreeOf(v).fields)
  {
    var keys := SortedKeys(v.fields.Keys);
    forall i, j | 0 <= i < j < |keys| ensures keys[i] != keys[j] { LessIrreflexive(keys[i]); }
  }

  /** Decoding what was printed gives the value back. */
  lemma {:induction false} RoundTrip(v: Json)
    requires Valid(v)
    ensures ValueOf(TreeOf(v)) == v
    decreases v
  {
    match v
    case Null =>
    case Bool(_) =>
    case Number(text) => NumbersAreNotLiterals(text);
    case String(_) =>
    case Array(items) =>
      forall i | 0 <= i < |items| ensures ValueOf(TreeOf(items[i])) == items[i] { RoundTrip(items[i]); }
      assert ValueOf(TreeOf(v)).items == items;
    case Object(fields) =>
      forall k | k in fields ensures ValueOf(TreeOf(fields[k])) == fields[k] { RoundTrip(fields[k]); }
      ObjectRoundTrip(v);
  }

  lemma NumbersAreNotLiterals(text: string)
    requires IsNumber(text)
    ensures text != "null" && text != "true" && text != "false"
  {
  }

  lemma ObjectRoundTrip(v: Json)
    requires v.Object? && forall k | k in v.fields :: ValueOf(TreeOf(v.fields[k])) == v.fields[k]
    ensures FieldMap(TreeOf(v).fields) == v.fields
  {
    var keys, fields := SortedKeys(v.fields.Keys), TreeOf(v).fields;
    SortedFieldsAreDistinct(v);
    FieldMapNames(fields);
    FieldMapValues(fields);
    forall k ensures k in FieldMap(fields) <==> k in v.fields {
      if k in v.fields {
        assert k in keys;
        var i :| 0 <= i < |keys| && keys[i] == k;
        assert fields[i].name == k;
      }
      if k in FieldMap(fields) {
        var i :| 0 <= i < |fields| && fields[i].name == k;
        assert keys[i] in keys;
      }
    }
    forall k | k in v.fields ensures FieldMap(fields)[k] == v.fields[k] {
      assert k in keys;
      var i :| 0 <= i < |keys| && keys[i] == k;
      assert fields[i] == J.Field(k, TreeOf(v.fields[k]));
    }
  }

  /** The printed form never repeats a field, so it passes the duplicate check. */
  lemma {:induction false} CanonicalHasNoDuplicates(v: Json)
    ensures J.NoDuplicates(TreeOf(v))
    decreases v
  {
    match v
    case Array(items) =>
      forall i | 0 <= i < |items| ensures J.NoDuplicates(TreeOf(items[i])) { CanonicalHasNoDuplicates(items[i]); }
    case Object(fields) =>
      SortedFieldsAreDistinct(v);
      var keys := SortedKeys(fields.Keys);
      forall i | 0 <= i < |keys| ensures keys[i] in fields && J.NoDuplicates(TreeOf(fields[keys[i]])) {
        assert keys[i] in keys;
        CanonicalHasNoDuplicates(fields[keys[i]]);
      }
    case _ =>
  }

  /** Equal canonical forms mean equal values. */
  lemma CanonicalIsInjective(v: Json, w: Json)
    requires Valid(v) && Valid(w) && Canonical(v) == Canonical(w)
    ensures v == w
  {
    J.TreePrefix(TreeOf(v), TreeOf(w), [], []);
    RoundTrip(v);
    RoundTrip(w);
  }

  // ---------------------------------------------------------------- canonicalJSON

  /** Decoding a whole text: the value of the one tree it spells. */
  ghost function Decode(ts: seq<J.Tok>): Option<Json> {
    if exists t :: J.Tokens(t) == ts then
      var t :| J.Tokens(t) == ts;
      Some(ValueOf(t))
    else None
  }

  /** canonicalJSON. */
  ghost function Canonicalize(ts: seq<J.Tok>): Option<seq<J.Tok>> {
    var v := Decode(ts);
    if v.None? then None else Some(Canonical(v.value))
  }

  lemma DecodeTree(t: J.Tree)
    ensures Decode(J.Tokens(t)) == Some(ValueOf(t))
  {
    forall u | J.Tokens(u) == J.Tokens(t) ensures u == t {
      assert J.Tokens(u) + [] == J.Tokens(t) + [];
      J.TreePrefix(u, t, [], []);
    }
  }

  /** Reading the canonical form of a value gives that value. */
  lemma DecodeCanonical(v: Json)
    requires Valid(v)
    ensures Decode(Canonical(v)) == Some(v)
  {
    DecodeTree(TreeOf(v));
    RoundTrip(v);
  }

  /** Canonicalizing twice is canonicalizing once. */
  lemma CanonicalizeIsIdempotent(ts: seq<J.Tok>)
    requires Decode(ts).Some? && Valid(Decode(ts).value)
    ensures Canonicalize(Canonicalize(ts).value) == Canonicalize(ts)
  {
    DecodeCanonical(Decode(ts).value);
  }

  /** Two texts have the same canonical form exactly when they decode to the same value. */
  lemma CanonicalFormDecidesEquality(ts: seq<J.Tok>, us: seq<J.Tok>)
    requires Decode(ts).Some? && Decode(us).Some? && Valid(Decode(ts).value) && Valid(Decode(us).value)
    ensures Canonicalize(ts) == Canonicalize(us) <==> Decode(ts) == Decode(us)
  {
    if Canonicalize(ts) == Canonicalize(us) {
      CanonicalIsInjective(Decode(ts).value, Decode(us).value);
    }
  }

  // ---------------------------------------------------------------- The printer

  class Buffer {
    var tokens: seq<J.Tok>

    constructor ()
      ensures tokens == []
    {
      tokens := [];
    }

    method Write(tok: J.Tok)
      modifies this
      ensures tokens == old(tokens) + [tok]
    {
      tokens := tokens + [tok];
    }
  }

  /** The first n items and the commas between them. */
  ghost function ItemsUpTo(items: seq<J.Tree>, n: nat): seq<J.Tok>
    requires n <= |items|
  {
    if n == 0 then [] else ItemsUpTo(items, n - 1) + (if n > 1 then [J.Comma] else []) + J.Tokens(items[n - 1])
  }

  ghost function FieldsUpTo(fields: seq<J.Field>, n: nat): seq<J.Tok>
    requires n <= |fields|
  {
    if n == 0 then []
    else FieldsUpTo(fields, n - 1) + (if n > 1 then [J.Comma] else [])
         + ([J.Str(fields[n - 1].name), J.Colon] + J.Tokens(fields[n - 1].value))
  }

  lemma {:induction false} ItemsCut(items: seq<J.Tree>, n: nat)
    requires 0 < n < |items|
    ensures J.ItemTokens(items) == ItemsUpTo(items, n) + ([J.Comma] + J.ItemTokens(items[n..]))
  {
    if n == 1 {
      assert ItemsUpTo(items, 1) == J.Tokens(items[0]);
    } else {
      ItemsCut(items, n - 1);
      var rest := items[n - 1..];
      assert rest[0] == items[n - 1] && rest[1..] == items[n..];
      assert J.ItemTokens(rest) == J.Tokens(items[n - 1]) + ([J.Comma] + J.ItemTokens(items[n..]));
      Regroup(ItemsUpTo(items, n - 1), J.Tokens(items[n - 1]), [J.Comma] + J.ItemTokens(items[n..]));
    }
  }

  lemma Regroup(a: seq<J.Tok>, b: seq<J.Tok>, c: seq<J.Tok>)
    ensures a + ([J.Comma] + (b + c)) == (a + [J.Comma] + b) + c
  {
  }

  lemma ItemsWhole(items: seq<J.Tree>)
    requires items != []
    ensures J.ItemTokens(items) == ItemsUpTo(items, |items|) + [J.RBracket]
  {
    var n := |items|;
    if n == 1 {
      assert ItemsUpTo(items, 1) == J.Tokens(items[0]);
    } else {
      ItemsCut(items, n - 1);
      var rest := items[n - 1..];
      assert |rest| == 1 && rest[0] == items[n - 1];
      assert J.ItemTokens(rest) == J.Tokens(items[n - 1]) + [J.RBracket];
      Regroup(ItemsUpTo(items, n - 1), J.Tokens(items[n - 1]), [J.RBracket]);
    }
  }

  ghost function OneField(f: J.Field): seq<J.Tok> {
    [J.Str(f.name), J.Colon] + J.Tokens(f.value)
  }

  lemma FieldFirst(fields: seq<J.Field>)
    requires fields != []
    ensures J.FieldTokens(fields) == OneField(fields[0]) + J.FieldsRest(fields)
  {
    J.Assoc([J.Str(fields[0].name), J.Colon], J.Tokens(fields[0].value), J.FieldsRest(fields));
  }

  lemma {:induction false} FieldsCut(fields: seq<J.Field>, n: nat)
    requires 0 < n < |fields|
    ensures J.FieldTokens(fields) == FieldsUpTo(fields, n) + ([J.Comma] + J.FieldTokens(fields[n..]))
  {
    if n == 1 {
      FieldFirst(fields);
      assert FieldsUpTo(fields, 1) == OneField(fields[0]);
    } else {
      FieldsCut(fields, n - 1);
      var rest := fields[n - 1..];
      assert rest[0] == fields[n - 1] && rest[1..] == fields[n..];
      FieldFirst(rest);
      Regroup(FieldsUpTo(fields, n - 1), OneField(fields[n - 1]), [J.Comma] + J.FieldTokens(fields[n..]));
    }
  }

  lemma FieldsWhole(fields: seq<J.Field>)
    requires fields != []
    ensures J.FieldTokens(fields) == FieldsUpTo(fields, |fields|) + [J.RBrace]
  {
    var n := |fields|;
    if n == 1 {
      FieldFirst(fields);
      assert FieldsUpTo(fields, 1) == OneField(fields[0]);
    } else {
      FieldsCut(fields, n - 1);
      var rest := fields[n - 1..];
      assert |rest| == 1 && rest[0] == fields[n - 1];
      FieldFirst(rest);
      Regroup(FieldsUpTo(fields, n - 1), OneField(fields[n - 1]), [J.RBrace]);
    }
  }

  /** writeCanonicalJSON: keys are collected in the map's own order, whatever that is, then sorted. */
  method WriteCanonicalJson(destination: Buffer, v: Json)
    modifies destination
    ensures destination.tokens == old(destination.tokens) + Canonical(v)
    decreases v
  {
    match v {
      case Object(fields) => WriteObject(destination, v);
      case Array(items) => WriteArray(destination, v);
      case Null => destination.Write(J.Word("null"));
      case Bool(b) => destination.Write(J.Word(if b then "true" else "false"));
      case Number(text) => destination.Write(J.Word(text));
      case String(s) => destination.Write(J.Str(s));
    }
  }

  method KeysOf(fields: map<string, Json>) returns (keys: seq<string>)
    ensures keys == SortedKeys(fields.Keys)
  {
    var listed: seq<string> := [];
    var pending := fields.Keys;
    ghost var done: set<string> := {};
    while pending != {}
      invariant done + pending == fields.Keys && done !! pending
      invariant forall k :: k in listed <==> k in done
      invariant forall i, j | 0 <= i < j < |listed| :: listed[i] != listed[j]
      decreases pending
    {
      var k :| k in pending;
      assert k !in listed;
      pending := pending - {k};
      listed := listed + [k];
      done := done + {k};
    }
    assert done == fields.Keys;
    keys := SortStrings(listed);
    SortStringsSorts(listed);
    ListsUnique(keys, SortedKeys(fields.Keys), fields.Keys);
  }

  lemma Appended(start: seq<J.Tok>, a: seq<J.Tok>, b: seq<J.Tok>)
    ensures start + (a + b) == start + a + b
  {
  }

  lemma OneMoreField(start: seq<J.Tok>, fields: seq<J.Field>, n: nat)
    requires n < |fields|
    ensures (if n > 0 then start + FieldsUpTo(fields, n) + [J.Comma] else start + FieldsUpTo(fields, n))
            + [J.Str(fields[n].name)] + [J.Colon] + J.Tokens(fields[n].value)
         == start + FieldsUpTo(fields, n + 1)
  {
    var earlier, name, value := FieldsUpTo(fields, n), [J.Str(fields[n].name)], J.Tokens(fields[n].value);
    var comma := if n > 0 then [J.Comma] else [];
    assert name + [J.Colon] == [J.Str(fields[n].name), J.Colon];
    Appended(start, earlier + comma, name + [J.Colon] + value);
    Appended(start, earlier, comma);
    Appended(start + earlier + comma, name + [J.Colon], value);
    Appended(start + earlier + comma, name, [J.Colon]);
  }

  lemma ClosedObject(start: seq<J.Tok>, fields: seq<J.Field>)
    ensures start + [J.LBrace] + FieldsUpTo(fields, |fields|) + [J.RBrace] == start + J.Tokens(J.Obj(fields))
  {
    if fields != [] {
      FieldsWhole(fields);
    }
  }

  method WriteObject(destination: Buffer, v: Json)
    requires v.Object?
    modifies destination
    ensures destination.tokens == old(destination.tokens) + Canonical(v)
    decreases v, 0
  {
    var keys := KeysOf(v.fields);
    ghost var fields := TreeOf(v).fields;
    ghost var start := destination.tokens;
    destination.Write(J.LBrace);
    for index := 0 to |keys|
      invariant |fields| == |keys| && destination.tokens == start + [J.LBrace] + FieldsUpTo(fields, index)
    {
      OneMoreField(start + [J.LBrace], fields, index);
      assert keys[index] in keys && fields[index] == J.Field(keys[index], TreeOf(v.fields[keys[index]]));
      if index > 0 {
        destination.Write(J.Comma);
      }
      destination.Write(J.Str(keys[index]));
      destination.Write(J.Colon);
      WriteCanonicalJson(destination, v.fields[keys[index]]);
    }
    destination.Write(J.RBrace);
    ClosedObject(start, fields);
  }

  method WriteArray(destination: Buffer, v: Json)
    requires v.Array?
    modifies destination
    ensures destination.tokens == old(destination.tokens) + Canonical(v)
    decreases v, 0
  {
    ghost var items := TreeOf(v).items;
    ghost var start := destination.tokens;
    destination.Write(J.LBracket);
    for index := 0 to |v.items|
      invariant |items| == |v.items| && destination.tokens == start + [J.LBracket] + ItemsUpTo(items, index)
    {
      if index > 0 {
        destination.Write(J.Comma);
      }
      assert items[index] == TreeOf(v.items[index]);
      WriteCanonicalJson(destination, v.items[index]);
    }
    destination.Write(J.RBracket);
    if |v.items| > 0 {
      ItemsWhole(items);
    }
  }

  // ---------------------------------------------------------------- Down to characters

  /** The characters of one token; quote is the string encoding of json.Marshal. */
  function Spell(tok: J.Tok, quote: string -> string): string {
    match tok
    case LBrace => "{"
    case RBrace => "}"
    case LBracket => "["
    case RBracket => "]"
    case Colon => ":"
    case Comma => ","
    case Str(s) => quote(s)
    case Word(text) => text
    case Bad => ""
  }

  function SpellAll(ts: seq<J.Tok>, quote: string -> string): string {
    if ts == [] then "" else Spell(ts[0], quote) + SpellAll(ts[1..], quote)
  }

  ghost predicate ReadsOnce(quote: string -> string, s: string, t: string, u: string, w: string) {
    quote(s) + u == quote(t) + w ==> s == t
  }

  /** Encoded strings start with a quotation mark and can be read off the front of a text in one way only. */
  ghost predicate SelfDelimiting(quote: string -> string) {
    && (forall s :: quote(s) != "" && quote(s)[0] == '\"')
    && forall s, t, u, w :: ReadsOnce(quote, s, t, u, w)
  }

  predicate WordText(text: string) {
    text != "" && forall i | 0 <= i < |text| :: WordChar(text[i])
  }

  /** No two words touch, so that their characters do not run together. */
  predicate Spaced(ts: seq<J.Tok>) {
    ts != [] ==>
      && !ts[0].Bad?
      && (ts[0].Word? ==> WordText(ts[0].text) && (|ts| > 1 ==> !ts[1].Word?))
      && Spaced(ts[1..])
  }

  lemma SpacedCons(x: J.Tok, s: seq<J.Tok>)
    ensures Spaced([x] + s) <==>
              !x.Bad? && (x.Word? ==> WordText(x.text) && (s != [] ==> !s[0].Word?)) && Spaced(s)
  {
    assert ([x] + s)[1..] == s;
  }

  lemma RunUnique(a: string, b: string, r: string, s: string)
    requires WordText(a) && WordText(b) && a + r == b + s
    requires r != "" ==> !WordChar(r[0])
    requires s != "" ==> !WordChar(s[0])
    ensures a == b && r == s
  {
    forall i | 0 <= i < |b| ensures WordChar((b + s)[i]) { assert (b + s)[i] == b[i]; }
    forall i | 0 <= i < |a| ensures WordChar((a + r)[i]) { assert (a + r)[i] == a[i]; }
    if r != "" {
      assert (a + r)[|a|] == r[0];
    }
    if s != "" {
      assert (b + s)[|b|] == s[0];
    }
    assert |a| == |b|;
    assert a == (a + r)[..|a|] && b == (b + s)[..|b|];
    assert r == (a + r)[|a|..] && s == (b + s)[|b|..];
  }

  /** The first character tells the kind of token. */
  lemma SpellStarts(tok: J.Tok, quote: string -> string)
    requires SelfDelimiting(quote) && !tok.Bad? && (tok.Word? ==> WordText(tok.text))
    ensures Spell(tok, quote) != ""
    ensures tok.Word? <==> WordChar(Spell(tok, quote)[0])
    ensures tok.Str? <==> Spell(tok, quote)[0] == '\"'
    ensures !tok.Word? && !tok.Str? ==> |Spell(tok, quote)| == 1
  {
    if tok.Str? {
      assert quote(tok.s)[0] == '\"';
    }
  }

  lemma AfterWord(ts: seq<J.Tok>, quote: string -> string)
    requires SelfDelimiting(quote) && Spaced(ts) && (ts != [] ==> !ts[0].Word?)
    ensures SpellAll(ts, quote) != "" ==> !WordChar(SpellAll(ts, quote)[0])
  {
    if ts != [] {
      SpellStarts(ts[0], quote);
    }
  }

  /** Characters of spaced tokens determine the tokens. */
  lemma {:induction false} SpellInjective(ts: seq<J.Tok>, us: seq<J.Tok>, quote: string -> string)
    requires SelfDelimiting(quote) && Spaced(ts) && Spaced(us) && SpellAll(ts, quote) == SpellAll(us, quote)
    ensures ts == us
  {
    if ts != [] {
      SpellStarts(ts[0], quote);
    }
    if us != [] {
      SpellStarts(us[0], quote);
    }
    if ts != [] && us != [] {
      var x, y, r, s := ts[0], us[0], SpellAll(ts[1..], quote), SpellAll(us[1..], quote);
      assert SpellAll(ts, quote)[0] == Spell(x, quote)[0] && SpellAll(us, quote)[0] == Spell(y, quote)[0];
      if x.Word? {
        AfterWord(ts[1..], quote);
        AfterWord(us[1..], quote);
        RunUnique(x.text, y.text, r, s);
      } else if x.Str? {
        assert ReadsOnce(quote, x.s, y.s, r, s);
        assert r == (quote(x.s) + r)[|quote(x.s)|..] && s == (quote(y.s) + s)[|quote(y.s)|..];
      } else {
        assert r == (Spell(x, quote) + r)[1..] && s == (Spell(y, quote) + s)[1..];
      }
      SpellInjective(ts[1..], us[1..], quote);
      assert ts == [x] + ts[1..] && us == [y] + us[1..];
    }
  }

  ghost predicate WordsSpelled(t: J.Tree)
    decreases t
  {
    match t
    case Text(_) => true
    case Scalar(word) => WordText(word)
    case Arr(items) => forall i | 0 <= i < |items| :: WordsSpelled(items[i])
    case Obj(fields) => forall i | 0 <= i < |fields| :: WordsSpelled(fields[i].value)
  }

  /** What may follow a value. */
  predicate Follows(rest: seq<J.Tok>) {
    Spaced(rest) && (rest != [] ==> !rest[0].Word?)
  }

  lemma {:induction false} TreeIsSpaced(t: J.Tree, rest: seq<J.Tok>)
    requires WordsSpelled(t) && Follows(rest)
    ensures Spaced(J.Tokens(t) + rest)
    decreases t, 1
  {
    match t
    case Text(s) => SpacedCons(J.Str(s), rest);
    case Scalar(word) => SpacedCons(J.Word(word), rest);
    case Arr(items) =>
      J.ArraySplit(items, rest);
      if items == [] {
        SpacedCons(J.RBracket, rest);
        SpacedCons(J.LBracket, [J.RBracket] + rest);
      } else {
        ItemsAreSpaced(items, rest);
        SpacedCons(J.LBracket, J.ItemTokens(items) + rest);
      }
    case Obj(fields) =>
      J.ObjectSplit(fields, rest);
      if fields == [] {
        SpacedCons(J.RBrace, rest);
        SpacedCons(J.LBrace, [J.RBrace] + rest);
      } else {
        FieldsAreSpaced(fields, rest);
        SpacedCons(J.LBrace, J.FieldTokens(fields) + rest);
      }
  }

  lemma {:induction false} ItemsAreSpaced(items: seq<J.Tree>, rest: seq<J.Tok>)
    requires items != [] && Follows(rest) && forall i | 0 <= i < |items| :: WordsSpelled(items[i])
    ensures Spaced(J.ItemTokens(items) + rest)
    decreases items, 0
  {
    J.ItemsSplit(items, rest);
    if |items| == 1 {
      SpacedCons(J.RBracket, rest);
    } else {
      ItemsAreSpaced(items[1..], rest);
      SpacedCons(J.Comma, J.ItemTokens(items[1..]) + rest);
    }
    TreeIsSpaced(items[0], J.ItemsRest(items) + rest);
  }

  lemma {:induction false} FieldsAreSpaced(fields: seq<J.Field>, rest: seq<J.Tok>)
    requires fields != [] && Follows(rest) && forall i | 0 <= i < |fields| :: WordsSpelled(fields[i].value)
    ensures Spaced(J.FieldTokens(fields) + rest)
    decreases fields, 0
  {
    J.FieldsSplit(fields, rest);
    if |fields| == 1 {
      SpacedCons(J.RBrace, rest);
    } else {
      FieldsAreSpaced(fields[1..], rest);
      SpacedCons(J.Comma, J.FieldTokens(fields[1..]) + rest);
    }
    TreeIsSpaced(fields[0].value, J.FieldsRest(fields) + rest);
    var value := J.Tokens(fields[0].value) + (J.FieldsRest(fields) + rest);
    SpacedCons(J.Colon, value);
    SpacedCons(J.Str(fields[0].name), [J.Colon] + value);
  }

  lemma {:induction false} ValidTreesAreSpelled(v: Json)
    requires Valid(v)
    ensures WordsSpelled(TreeOf(v))
    decreases v
  {
    match v
    case Array(items) =>
      forall i | 0 <= i < |items| ensures WordsSpelled(TreeOf(items[i])) { ValidTreesAreSpelled(items[i]); }
    case Object(fields) =>
      var keys := SortedKeys(fields.Keys);
      forall i | 0 <= i < |keys| ensures keys[i] in fields && WordsSpelled(TreeOf(fields[keys[i]])) {
        assert keys[i] in keys;
        ValidTreesAreSpelled(fields[keys[i]]);
      }
    case _ =>
  }

  /** The canonical text of a value. */
  ghost function CanonicalText(v: Json, quote: string -> string): string {
    SpellAll(Canonical(v), quote)
  }

  /** Equal canonical texts mean equal values, down to the characters. */
  lemma CanonicalTextIsInjective(v: Json, w: Json, quote: string -> string)
    requires Valid(v) && Valid(w) && SelfDelimiting(quote) && CanonicalText(v, quote) == CanonicalText(w, quote)
    ensures v == w
  {
    ValidTreesAreSpelled(v);
    ValidTreesAreSpelled(w);
    TreeIsSpaced(TreeOf(v), []);
    TreeIsSpaced(TreeOf(w), []);
    assert Canonical(v) + [] == Canonical(v) && Canonical(w) + [] == Canonical(w);
    SpellInjective(Canonical(v), Canonical(w), quote);
    CanonicalIsInjective(v, w);
  }
}
