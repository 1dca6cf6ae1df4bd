/** JSON texts as token sequences: trees, their unique reading, and the duplicate-field check (section 4 of RFC 8259). */
module JsonTokens {
  import opened Evaluation

  // ---------------------------------------------------------------- Tokens and trees

  /** A word is a number, true, false or null; Bad is a lexeme the decoder cannot read. */
  datatype Tok = LBrace | RBrace | LBracket | RBracket | Colon | Comma | Str(s: string) | Word(text: string) | Bad

  datatype Field = Field(name: string, value: Tree)

  datatype Tree = Text(s: string) | Scalar(word: string) | Arr(items: seq<Tree>) | Obj(fields: seq<Field>)

  function Tokens(t: Tree): seq<Tok>
    decreases t
  {
    match t
    case Text(s) => [Str(s)]
    case Scalar(word) => [Word(word)]
    case Arr(items) => [LBracket] + (if items == [] then [RBracket] else ItemTokens(items))
    case Obj(fields) => [LBrace] + (if fields == [] then [RBrace] else FieldTokens(fields))
  }

  function ItemTokens(items: seq<Tree>): seq<Tok>
    requires items != []
    decreases items, 1
  {
    Tokens(items[0]) + ItemsRest(items)
  }

  /** What follows the first item. */
  function ItemsRest(items: seq<Tree>): seq<Tok>
    requires items != []
    decreases items, 0
  {
    if |items| == 1 then [RBracket] else [Comma] + ItemTokens(items[1..])
  }

  function FieldTokens(fields: seq<Field>): seq<Tok>
    requires fields != []
    decreases fields, 1
  {
    [Str(fields[0].name), Colon] + (Tokens(fields[0].value) + FieldsRest(fields))
  }

  /** What follows the first field. */
  function FieldsRest(fields: seq<Field>): seq<Tok>
    requires fields != []
    decreases fields, 0
  {
    if |fields| == 1 then [RBrace] else [Comma] + FieldTokens(fields[1..])
  }

  ghost predicate DistinctFields(fields: seq<Field>) {
    forall i, j | 0 <= i < j < |fields| :: fields[i].name != fields[j].name
  }

  /** No object at any depth repeats a field. */
  ghost predicate NoDuplicates(t: Tree)
    decreases t
  {
    match t
    case Text(_) | Scalar(_) => true
    case Arr(items) => forall i | 0 <= i < |items| :: NoDuplicates(items[i])
    case Obj(fields) => DistinctFields(fields) && forall i | 0 <= i < |fields| :: NoDuplicates(fields[i].value)
  }

  // ---------------------------------------------------------------- Unique reading

  lemma Starts(t: Tree, rest: seq<Tok>)
    ensures Tokens(t) != [] && (Tokens(t) + rest)[0] == Tokens(t)[0]
    ensures Tokens(t)[0] != RBracket && Tokens(t)[0] != RBrace
    ensures t.Text? <==> Tokens(t)[0].Str?
    ensures t.Scalar? <==> Tokens(t)[0].Word?
    ensures t.Arr? <==> Tokens(t)[0] == LBracket
    ensures t.Obj? <==> Tokens(t)[0] == LBrace
  {
  }

  lemma SameTail(x: Tok, s: seq<Tok>, y: Tok, t: seq<Tok>)
    requires [x] + s == [y] + t
    ensures x == y && s == t
  {
    assert ([x] + s)[0] == ([y] + t)[0];
    assert s == ([x] + s)[1..] && t == ([y] + t)[1..];
  }

  lemma Assoc(a: seq<Tok>, b: seq<Tok>, c: seq<Tok>)
    ensures (a + b) + c == a + (b + c)
  {
  }

  lemma ArraySplit(items: seq<Tree>, r: seq<Tok>)
    ensures items == [] ==> Tokens(Arr(items)) + r == [LBracket] + ([RBracket] + r)
    ensures items != [] ==> Tokens(Arr(items)) + r == [LBracket] + (ItemTokens(items) + r)
  {
  }

  lemma ObjectSplit(fields: seq<Field>, r: seq<Tok>)
    ensures fields == [] ==> Tokens(Obj(fields)) + r == [LBrace] + ([RBrace] + r)
    ensures fields != [] ==> Tokens(Obj(fields)) + r == [LBrace] + (FieldTokens(fields) + r)
  {
  }

  lemma ItemsSplit(items: seq<Tree>, r: seq<Tok>)
    requires items != []
    ensures ItemTokens(items) + r == Tokens(items[0]) + (ItemsRest(items) + r)
    ensures |items| == 1 ==> ItemsRest(items) + r == [RBracket] + r
    ensures |items| > 1 ==> ItemsRest(items) + r == [Comma] + (ItemTokens(items[1..]) + r)
  {
    Assoc(Tokens(items[0]), ItemsRest(items), r);
    if |items| > 1 {
      Assoc([Comma], ItemTokens(items[1..]), r);
    }
  }

  lemma FieldsSplit(fields: seq<Field>, r: seq<Tok>)
    requires fields != []
    ensures FieldTokens(fields) + r == [Str(fields[0].name)] + ([Colon] + (Tokens(fields[0].value) + (FieldsRest(fields) + r)))
    ensures |fields| == 1 ==> FieldsRest(fields) + r == [RBrace] + r
    ensures |fields| > 1 ==> FieldsRest(fields) + r == [Comma] + (FieldTokens(fields[1..]) + r)
  {
    var name, value := fields[0].name, Tokens(fields[0].value);
    Assoc([Str(name), Colon], value + FieldsRest(fields), r);
    Assoc(value, FieldsRest(fields), r);
    TwoHeads(Str(name), Colon, value + (FieldsRest(fields) + r));
    if |fields| > 1 {
      Assoc([Comma], FieldTokens(fields[1..]), r);
    }
  }

  lemma TwoHeads(x: Tok, y: Tok, s: seq<Tok>)
    ensures [x, y] + s == [x] + ([y] + s)
    ensures ([x, y] + s)[2..] == s
  {
  }

  /** A tree can be read off the front of a token sequence in one way only. */
  lemma {:induction false} TreePrefix(a: Tree, b: Tree, r: seq<Tok>, s: seq<Tok>)
    requires Tokens(a) + r == Tokens(b) + s
    ensures a == b && r == s
    decreases a, 2
  {
    Starts(a, r);
    Starts(b, s);
    assert Tokens(a)[0] == Tokens(b)[0];
    match a
    case Text(x) => SameTail(Str(x), r, Str(b.s), s);
    case Scalar(x) => SameTail(Word(x), r, Word(b.word), s);
    case Arr(items) => ArrayPrefix(items, b.items, r, s);
    case Obj(fields) => ObjectPrefix(fields, b.fields, r, s);
  }

  lemma {:induction false} ArrayPrefix(a: seq<Tree>, b: seq<Tree>, r: seq<Tok>, s: seq<Tok>)
    requires Tokens(Arr(a)) + r == Tokens(Arr(b)) + s
    ensures a == b && r == s
    decreases a, 2
  {
    ArraySplit(a, r);
    ArraySplit(b, s);
    var x := if a == [] then [RBracket] + r else ItemTokens(a) + r;
    var y := if b == [] then [RBracket] + s else ItemTokens(b) + s;
    var hx, hy := x[0], y[0];
    SameTail(LBracket, x, LBracket, y);
    if a != [] {
      ItemsSplit(a, r);
      Starts(a[0], ItemsRest(a) + r);
    }
    if b != [] {
      ItemsSplit(b, s);
      Starts(b[0], ItemsRest(b) + s);
    }
    if a == [] && b == [] {
      SameTail(RBracket, r, RBracket, s);
    } else if a != [] && b != [] {
      ItemsPrefix(a, b, r, s);
    }
  }

  lemma {:induction false} ObjectPrefix(a: seq<Field>, b: seq<Field>, r: seq<Tok>, s: seq<Tok>)
    requires Tokens(Obj(a)) + r == Tokens(Obj(b)) + s
    ensures a == b && r == s
    decreases a, 2
  {
    ObjectSplit(a, r);
    ObjectSplit(b, s);
    var x := if a == [] then [RBrace] + r else FieldTokens(a) + r;
    var y := if b == [] then [RBrace] + s else FieldTokens(b) + s;
    var hx, hy := x[0], y[0];
    SameTail(LBrace, x, LBrace, y);
    if a != [] {
      FieldsSplit(a, r);
    }
    if b != [] {
      FieldsSplit(b, s);
    }
    if a == [] && b == [] {
      SameTail(RBrace, r, RBrace, s);
    } else if a != [] && b != [] {
      FieldsPrefix(a, b, r, s);
    }
  }

  lemma {:induction false} ItemsPrefix(a: seq<Tree>, b: seq<Tree>, r: seq<Tok>, s: seq<Tok>)
    requires a != [] && b != [] && ItemTokens(a) + r == ItemTokens(b) + s
    ensures a == b && r == s
    decreases a, 1
  {
    ItemsSplit(a, r);
    ItemsSplit(b, s);
    TreePrefix(a[0], b[0], ItemsRest(a) + r, ItemsRest(b) + s);
    var x := if |a| == 1 then r else ItemTokens(a[1..]) + r;
    var y := if |b| == 1 then s else ItemTokens(b[1..]) + s;
    SameTail(if |a| == 1 then RBracket else Comma, x, if |b| == 1 then RBracket else Comma, y);
    if |a| > 1 {
      ItemsPrefix(a[1..], b[1..], r, s);
    }
    assert a == [a[0]] + a[1..] && b == [b[0]] + b[1..];
  }

  lemma {:induction false} FieldsPrefix(a: seq<Field>, b: seq<Field>, r: seq<Tok>, s: seq<Tok>)
    requires a != [] && b != [] && FieldTokens(a) + r == FieldTokens(b) + s
    ensures a == b && r == s
    decreases a, 1
  {
    FieldsSplit(a, r);
    FieldsSplit(b, s);
    var u, w := Tokens(a[0].value) + (FieldsRest(a) + r), Tokens(b[0].value) + (FieldsRest(b) + s);
    SameTail(Str(a[0].name), [Colon] + u, Str(b[0].name), [Colon] + w);
    SameTail(Colon, u, Colon, w);
    TreePrefix(a[0].value, b[0].value, FieldsRest(a) + r, FieldsRest(b) + s);
    var x := if |a| == 1 then r else FieldTokens(a[1..]) + r;
    var y := if |b| == 1 then s else FieldTokens(b[1..]) + s;
    SameTail(if |a| == 1 then RBrace else Comma, x, if |b| == 1 then RBrace else Comma, y);
    if |a| > 1 {
      FieldsPrefix(a[1..], b[1..], r, s);
    }
    assert a == [a[0]] + a[1..] && b == [b[0]] + b[1..];
  }

  // ---------------------------------------------------------------- The grammar with the duplicate check

  /** What is left after one well-formed value without duplicate fields. */
  function CheckValue(ts: seq<Tok>): (rest: Option<seq<Tok>>)
    ensures rest.Some? ==> |rest.value| < |ts|
    decreases |ts|, 0
  {
    if ts == [] then None
    else
      match ts[0]
      case Str(_) | Word(_) => Some(ts[1..])
      case LBracket => if |ts| > 1 && ts[1] == RBracket then Some(ts[2..]) else CheckItems(ts[1..])
      case LBrace => if |ts| > 1 && ts[1] == RBrace then Some(ts[2..]) else CheckFields(ts[1..], {})
      case _ => None
  }

  function CheckItems(ts: seq<Tok>): (rest: Option<seq<Tok>>)
    ensures rest.Some? ==> |rest.value| < |ts|
    decreases |ts|, 1
  {
    var after := CheckValue(ts);
    if after.None? || after.value == [] then None
    else
      match after.value[0]
      case Comma => CheckItems(after.value[1..])
      case RBracket => Some(after.value[1..])
      case _ => None
  }

  function CheckFields(ts: seq<Tok>, seen: set<string>): (rest: Option<seq<Tok>>)
    ensures rest.Some? ==> |rest.value| < |ts|
    decreases |ts|, 1
  {
    if |ts| < 2 || !ts[0].Str? || ts[0].s in seen || ts[1] != Colon then None
    else
      var after := CheckValue(ts[2..]);
      if after.None? || after.value == [] then None
      else
        match after.value[0]
        case Comma => CheckFields(after.value[1..], seen + {ts[0].s})
        case RBrace => Some(after.value[1..])
        case _ => None
  }

  lemma TailOf(x: Tok, s: seq<Tok>)
    ensures ([x] + s)[1..] == s
  {
  }

  lemma {:induction false} CheckComplete(t: Tree, rest: seq<Tok>)
    requires NoDuplicates(t)
    ensures CheckValue(Tokens(t) + rest) == Some(rest)
    decreases t, 1
  {
    match t
    case Text(s) => TailOf(Str(s), rest);
    case Scalar(word) => TailOf(Word(word), rest);
    case Arr(items) =>
      ArraySplit(items, rest);
      if items == [] {
        assert (Tokens(t) + rest)[2..] == rest;
      } else {
        TailOf(LBracket, ItemTokens(items) + rest);
        ItemsSplit(items, rest);
        Starts(items[0], ItemsRest(items) + rest);
        ItemsComplete(items, rest);
      }
    case Obj(fields) =>
      ObjectSplit(fields, rest);
      if fields == [] {
        assert (Tokens(t) + rest)[2..] == rest;
      } else {
        TailOf(LBrace, FieldTokens(fields) + rest);
        FieldsSplit(fields, rest);
        FieldsComplete(fields, {}, rest);
      }
  }

  lemma {:induction false} ItemsComplete(items: seq<Tree>, rest: seq<Tok>)
    requires items != [] && forall i | 0 <= i < |items| :: NoDuplicates(items[i])
    ensures CheckItems(ItemTokens(items) + rest) == Some(rest)
    decreases items, 0
  {
    ItemsSplit(items, rest);
    CheckComplete(items[0], ItemsRest(items) + rest);
    if |items| > 1 {
      ItemsComplete(items[1..], rest);
      ItemsStep(ItemTokens(items) + rest, Comma, ItemTokens(items[1..]) + rest);
    } else {
      ItemsStep(ItemTokens(items) + rest, RBracket, rest);
    }
  }

  lemma ItemsStep(ts: seq<Tok>, separator: Tok, after: seq<Tok>)
    requires CheckValue(ts) == Some([separator] + after)
    ensures separator == Comma ==> CheckItems(ts) == CheckItems(after)
    ensures separator == RBracket ==> CheckItems(ts) == Some(after)
  {
    TailOf(separator, after);
  }

  lemma {:induction false} FieldsComplete(fields: seq<Field>, seen: set<string>, rest: seq<Tok>)
    requires fields != [] && DistinctFields(fields) && forall i | 0 <= i < |fields| :: NoDuplicates(fields[i].value) && fields[i].name !in seen
    ensures CheckFields(FieldTokens(fields) + rest, seen) == Some(rest)
    decreases fields, 0
  {
    FieldsSplit(fields, rest);
    CheckComplete(fields[0].value, FieldsRest(fields) + rest);
    var u := Tokens(fields[0].value) + (FieldsRest(fields) + rest);
    if |fields| > 1 {
      FieldsComplete(fields[1..], seen + {fields[0].name}, rest);
      FieldsStep(fields[0].name, u, seen, Comma, FieldTokens(fields[1..]) + rest);
    } else {
      FieldsStep(fields[0].name, u, seen, RBrace, rest);
    }
  }

  lemma FieldsStep(name: string, value: seq<Tok>, seen: set<string>, separator: Tok, after: seq<Tok>)
    requires name !in seen && CheckValue(value) == Some([separator] + after)
    ensures separator == Comma ==> CheckFields([Str(name)] + ([Colon] + value), seen) == CheckFields(after, seen + {name})
    ensures separator == RBrace ==> CheckFields([Str(name)] + ([Colon] + value), seen) == Some(after)
  {
    var ts := [Str(name)] + ([Colon] + value);
    assert ts[0] == Str(name) && ts[1] == Colon && ts[2..] == value;
    TailOf(separator, after);
  }

  lemma {:induction false} CheckSound(ts: seq<Tok>) returns (t: Tree)
    requires CheckValue(ts).Some?
    ensures NoDuplicates(t) && ts == Tokens(t) + CheckValue(ts).value
    decreases |ts|, 0
  {
    match ts[0]
    case Str(s) => t := Text(s);
    case Word(word) => t := Scalar(word);
    case LBracket =>
      if |ts| > 1 && ts[1] == RBracket {
        t := Arr([]);
      } else {
        var items := ItemsSound(ts[1..]);
        t := Arr(items);
        assert ts == [LBracket] + ts[1..];
      }
    case LBrace =>
      if |ts| > 1 && ts[1] == RBrace {
        t := Obj([]);
      } else {
        var fields := FieldsSound(ts[1..], {});
        t := Obj(fields);
        assert ts == [LBrace] + ts[1..];
      }
  }

  lemma {:induction false} ItemsSound(ts: seq<Tok>) returns (items: seq<Tree>)
    requires CheckItems(ts).Some?
    ensures items != [] && forall i | 0 <= i < |items| :: NoDuplicates(items[i])
    ensures ts == ItemTokens(items) + CheckItems(ts).value
    decreases |ts|, 1
  {
    var first := CheckSound(ts);
    var after, rest := CheckValue(ts).value, CheckItems(ts).value;
    assert after == [after[0]] + after[1..];
    if after[0] == Comma {
      var others := ItemsSound(after[1..]);
      items := [first] + others;
      assert items[1..] == others;
    } else {
      items := [first];
    }
    ItemsSplit(items, rest);
  }

  lemma {:induction false} FieldsSound(ts: seq<Tok>, seen: set<string>) returns (fields: seq<Field>)
    requires CheckFields(ts, seen).Some?
    ensures fields != [] && DistinctFields(fields)
    ensures forall i | 0 <= i < |fields| :: NoDuplicates(fields[i].value) && fields[i].name !in seen
    ensures ts == FieldTokens(fields) + CheckFields(ts, seen).value
    decreases |ts|, 1
  {
    var value := CheckSound(ts[2..]);
    var after, rest := CheckValue(ts[2..]).value, CheckFields(ts, seen).value;
    assert after == [after[0]] + after[1..];
    if after[0] == Comma {
      var others := FieldsSound(after[1..], seen + {ts[0].s});
      fields := [Field(ts[0].s, value)] + others;
      assert fields[1..] == others;
    } else {
      fields := [Field(ts[0].s, value)];
    }
    FieldsSplit(fields, rest);
    TwoHeads(ts[0], ts[1], ts[2..]);
    assert ts == [ts[0], ts[1]] + ts[2..];
  }

  /** The check passes exactly the token sequences of one tree without duplicate fields. */
  lemma CheckIsExact(ts: seq<Tok>)
    ensures CheckValue(ts) == Some([]) <==> exists t :: NoDuplicates(t) && Tokens(t) == ts
  {
    if CheckValue(ts) == Some([]) {
      var t := CheckSound(ts);
      assert Tokens(t) == Tokens(t) + [];
    }
    forall t | NoDuplicates(t) && Tokens(t) == ts ensures CheckValue(ts) == Some([]) {
      CheckComplete(t, []);
      assert Tokens(t) + [] == Tokens(t);
    }
  }

  // ---------------------------------------------------------------- The decoder

  datatype TokenState =
    | TopValue | ArrayStart | ArrayValue | ArrayComma | ObjectStart | ObjectKey | ObjectColon | ObjectValue | ObjectComma

  /** What the decoder hands out: a delimiter, a string, or another literal. */
  datatype Token = Delim(tok: Tok) | StringToken(s: string) | LiteralToken

  predicate ValueAllowed(state: TokenState) {
    state.TopValue? || state.ArrayStart? || state.ArrayValue? || state.ObjectValue?
  }

  /** The state after a complete value. */
  function ValueEnd(state: TokenState): TokenState {
    match state
    case ArrayStart | ArrayValue => ArrayComma
    case ObjectValue => ObjectComma
    case _ => state
  }

  /** A separator the state expects is consumed silently. */
  function SkipState(state: TokenState, ts: seq<Tok>): TokenState {
    if ts == [] then state
    else if ts[0] == Colon && state.ObjectColon? then ObjectValue
    else if ts[0] == Comma && state.ArrayComma? then ArrayValue
    else if ts[0] == Comma && state.ObjectComma? then ObjectKey
    else state
  }

  function SkipTokens(state: TokenState, ts: seq<Tok>): seq<Tok> {
    if SkipState(state, ts) != state then ts[1..] else ts
  }

  datatype Step = Step(token: Token, state: TokenState, stack: seq<TokenState>, rest: seq<Tok>)

  /** One call of Token, as a function of the decoder's state. */
  function NextToken(state: TokenState, stack: seq<TokenState>, ts: seq<Tok>): (step: Option<Step>)
    ensures step.Some? ==> |step.value.rest| < |ts|
  {
    var st, rest := SkipState(state, ts), SkipTokens(state, ts);
    if rest == [] then None
    else
      match rest[0]
      case LBracket => if ValueAllowed(st) then Some(Step(Delim(LBracket), ArrayStart, stack + [st], rest[1..])) else None
      case LBrace => if ValueAllowed(st) then Some(Step(Delim(LBrace), ObjectStart, stack + [st], rest[1..])) else None
      case RBracket =>
        if (st.ArrayStart? || st.ArrayComma?) && stack != [] then
          Some(Step(Delim(RBracket), ValueEnd(stack[|stack| - 1]), stack[..|stack| - 1], rest[1..]))
        else None
      case RBrace =>
        if (st.ObjectStart? || st.ObjectComma?) && stack != [] then
          Some(Step(Delim(RBrace), ValueEnd(stack[|stack| - 1]), stack[..|stack| - 1], rest[1..]))
        else None
      case Str(s) =>
        if st.ObjectStart? || st.ObjectKey? then Some(Step(StringToken(s), ObjectColon, stack, rest[1..]))
        else if ValueAllowed(st) then Some(Step(StringToken(s), ValueEnd(st), stack, rest[1..]))
        else None
      case Word(_) => if ValueAllowed(st) then Some(Step(LiteralToken, ValueEnd(st), stack, rest[1..])) else None
      case Colon | Comma | Bad => None
  }

  /** Where a value may be asked for: at the top, at the next array element, or after a field name. */
  predicate ValuePosition(state: TokenState) {
    state.TopValue? || state.ArrayStart? || state.ArrayComma? || state.ObjectColon?
  }

  /** The state in which a consumed value leaves its surroundings. */
  function AfterValue(state: TokenState): TokenState {
    match state
    case ArrayStart | ArrayComma => ArrayComma
    case ObjectColon => ObjectComma
    case _ => state
  }

  /** What is left after the separator the state asks for and one value. */
  function ValueFollows(state: TokenState, ts: seq<Tok>): Option<seq<Tok>> {
    if (state.ArrayComma? || state.ObjectColon?) && SkipState(state, ts) == state then None
    else CheckValue(SkipTokens(state, ts))
  }

  /** What is left after the remaining elements of an array and its closing bracket. */
  function ArrayRest(state: TokenState, ts: seq<Tok>): Option<seq<Tok>> {
    if ts == [] then None
    else if ts[0] == RBracket then Some(ts[1..])
    else if state.ArrayStart? then CheckItems(ts)
    else if ts[0] == Comma then CheckItems(ts[1..])
    else None
  }

  /** What is left after the remaining fields of an object and its closing brace. */
  function ObjectRest(state: TokenState, ts: seq<Tok>, seen: set<string>): Option<seq<Tok>> {
    if ts == [] then None
    else if ts[0] == RBrace then Some(ts[1..])
    else if state.ObjectStart? then CheckFields(ts, seen)
    else if ts[0] == Comma then CheckFields(ts[1..], seen)
    else None
  }

  lemma ArrayElement(state: TokenState, ts: seq<Tok>)
    requires (state.ArrayStart? || state.ArrayComma?) && ts != [] && ts[0] != RBracket
    ensures ValueFollows(state, ts).None? ==> ArrayRest(state, ts).None?
    ensures ValueFollows(state, ts).Some? ==> ArrayRest(state, ts) == ArrayRest(ArrayComma, ValueFollows(state, ts).value)
  {
  }

  /** A field starts with its name; nothing else is handed out there. */
  lemma FieldName(state: TokenState, stack: seq<TokenState>, ts: seq<Tok>, seen: set<string>)
    requires (state.ObjectStart? || state.ObjectComma?) && ts != [] && ts[0] != RBrace && ts[0] != RBracket
    ensures NextToken(state, stack, ts).None? ==> ObjectRest(state, ts, seen).None?
    ensures NextToken(state, stack, ts).Some? ==>
              var step := NextToken(state, stack, ts).value;
              && step.token.StringToken? && step.state == ObjectColon && step.stack == stack
              && (step.token.s in seen ==> ObjectRest(state, ts, seen).None?)
              && (step.token.s !in seen ==>
                    ObjectRest(state, ts, seen) ==
                      var after := ValueFollows(ObjectColon, step.rest);
                      if after.None? then None else ObjectRest(ObjectComma, after.value, seen + {step.token.s}))
  {
    var fields := SkipTokens(state, ts);
    if fields != [] && fields[0].Str? {
      assert fields[1..] != [] ==> fields[1..][1..] == fields[2..];
    }
  }

  // ---------------------------------------------------------------- The rest of an open array or object

  /** The next token is not a closing bracket. */
  predicate MoreFollows(ts: seq<Tok>) {
    ts != [] && ts[0] != RBracket && ts[0] != RBrace
  }

  /** What is left of an array with these elements to come, before or after its first element. */
  function ArrayLeft(items: seq<Tree>, started: bool): seq<Tok> {
    if items == [] then [RBracket] else if started then [Comma] + ItemTokens(items) else ItemTokens(items)
  }

  function ObjectLeft(fields: seq<Field>, started: bool): seq<Tok> {
    if fields == [] then [RBrace] else if started then [Comma] + FieldTokens(fields) else FieldTokens(fields)
  }

  /** In an open array more follows exactly when an element is left. */
  lemma MoreMeansElement(items: seq<Tree>, started: bool, after: seq<Tok>)
    ensures MoreFollows(ArrayLeft(items, started) + after) <==> items != []
  {
    if items != [] {
      ItemsSplit(items, after);
      Starts(items[0], ItemsRest(items) + after);
    }
  }

  /** In an open object more follows exactly when a field is left. */
  lemma MoreMeansField(fields: seq<Field>, started: bool, after: seq<Tok>)
    ensures MoreFollows(ObjectLeft(fields, started) + after) <==> fields != []
  {
    if fields != [] {
      FieldsSplit(fields, after);
    }
  }

  class Decoder {
    var rest: seq<Tok>
    var state: TokenState
    var stack: seq<TokenState>

    constructor (tokens: seq<Tok>)
      ensures rest == tokens && state == TopValue && stack == []
    {
      rest, state, stack := tokens, TopValue, [];
    }

    /** Token: skips an expected separator, then reads one token; an error leaves the decoder unusable. */
    method Token() returns (token: Option<Token>)
      modifies this
      ensures token.Some? <==> NextToken(old(state), old(stack), old(rest)).Some?
      ensures token.Some? ==> Step(token.value, state, stack, rest) == NextToken(old(state), old(stack), old(rest)).value
      ensures |rest| <= |old(rest)|
    {
      if rest != [] && ((rest[0] == Colon && state.ObjectColon?) || (rest[0] == Comma && (state.ArrayComma? || state.ObjectComma?))) {
        state := if rest[0] == Colon then ObjectValue else if state.ArrayComma? then ArrayValue else ObjectKey;
        rest := rest[1..];
      }
      if rest == [] {
        return None;
      }
      match rest[0] {
        case LBracket =>
          if !ValueAllowed(state) {
            return None;
          }
          stack, state := stack + [state], ArrayStart;
          token := Some(Delim(LBracket));
        case LBrace =>
          if !ValueAllowed(state) {
            return None;
          }
          stack, state := stack + [state], ObjectStart;
          token := Some(Delim(LBrace));
        case RBracket =>
          if (state != ArrayStart && state != ArrayComma) || stack == [] {
            return None;
          }
          state, stack := ValueEnd(stack[|stack| - 1]), stack[..|stack| - 1];
          token := Some(Delim(RBracket));
        case RBrace =>
          if (state != ObjectStart && state != ObjectComma) || stack == [] {
            return None;
          }
          state, stack := ValueEnd(stack[|stack| - 1]), stack[..|stack| - 1];
          token := Some(Delim(RBrace));
        case Str(s) =>
          if state.ObjectStart? || state.ObjectKey? {
            state := ObjectColon;
          } else if ValueAllowed(state) {
            state := ValueEnd(state);
          } else {
            return None;
          }
          token := Some(StringToken(s));
        case Word(_) =>
          if !ValueAllowed(state) {
            return None;
          }
          state := ValueEnd(state);
          token := Some(LiteralToken);
        case Colon => return None;
        case Comma => return None;
        case Bad => return None;
      }
      rest := rest[1..];
    }

    /** More: before the rest of an open array or object, whether an element or field is left. */
    method More() returns (more: bool)
      ensures more <==> MoreFollows(rest)
      ensures forall items, started, after | rest == ArrayLeft(items, started) + after :: more <==> items != []
      ensures forall fields, started, after | rest == ObjectLeft(fields, started) + after :: more <==> fields != []
    {
      more := rest != [] && rest[0] != RBracket && rest[0] != RBrace;
      forall items, started, after | rest == ArrayLeft(items, started) + after ensures more <==> items != [] {
        MoreMeansElement(items, started, after);
      }
      forall fields, started, after | rest == ObjectLeft(fields, started) + after ensures more <==> fields != [] {
        MoreMeansField(fields, started, after);
      }
    }

    /** consumeJSONValue: reads one value, recursively, and refuses a repeated field. */
    method ConsumeValue() returns (ok: bool)
      requires ValuePosition(state)
      modifies this
      ensures ok <==> ValueFollows(old(state), old(rest)).Some?
      ensures ok ==> Some(rest) == ValueFollows(old(state), old(rest)) && state == AfterValue(old(state)) && stack == old(stack)
      decreases |rest|, 0
    {
      ghost var start, outer, target := state, stack, ValueFollows(state, rest);
      var token := Token();
      if token.None? {
        return false;
      }
      if !token.value.Delim? {
        return true;
      }
      match token.value.tok {
        case LBrace =>
          ok := ConsumeFields();
        case LBracket =>
          ok := ConsumeItems();
        case _ =>
          ok := false;
      }
    }

    method ConsumeItems() returns (ok: bool)
      requires state == ArrayStart && stack != []
      modifies this
      ensures ok <==> ArrayRest(ArrayStart, old(rest)).Some?
      ensures ok ==> Some(rest) == ArrayRest(ArrayStart, old(rest))
      ensures ok ==> state == ValueEnd(old(stack)[|old(stack)| - 1]) && stack == old(stack)[..|old(stack)| - 1]
      decreases |rest|, 1
    {
      var more := More();
      while more
        invariant state == ArrayStart || state == ArrayComma
        invariant stack == old(stack) && |rest| <= |old(rest)|
        invariant ArrayRest(state, rest) == ArrayRest(ArrayStart, old(rest))
        invariant more <==> MoreFollows(rest)
        decreases |rest|
      {
        ArrayElement(state, rest);
        ok := ConsumeValue();
        if !ok {
          return false;
        }
        more := More();
      }
      assert rest != [] && rest[0] == RBrace ==> CheckValue(rest).None?;
      var closing := Token();
      ok := closing.Some?;
    }

    method ConsumeFields() returns (ok: bool)
      requires state == ObjectStart && stack != []
      modifies this
      ensures ok <==> ObjectRest(ObjectStart, old(rest), {}).Some?
      ensures ok ==> Some(rest) == ObjectRest(ObjectStart, old(rest), {})
      ensures ok ==> state == ValueEnd(old(stack)[|old(stack)| - 1]) && stack == old(stack)[..|old(stack)| - 1]
      decreases |rest|, 1
    {
      var fields: set<string> := {};
      var more := More();
      while more
        invariant state == ObjectStart || state == ObjectComma
        invariant stack == old(stack) && |rest| <= |old(rest)|
        invariant ObjectRest(state, rest, fields) == ObjectRest(ObjectStart, old(rest), {})
        invariant more <==> MoreFollows(rest)
        decreases |rest|
      {
        FieldName(state, stack, rest, fields);
        var field := Token();
        if field.None? || !field.value.StringToken? {
          return false;
        }
        if field.value.s in fields {
          return false;
        }
        fields := fields + {field.value.s};
        ok := ConsumeValue();
        if !ok {
          return false;
        }
        more := More();
      }
      var closing := Token();
      ok := closing.Some?;
    }
  }

  /** expectEOF after one value: nothing is left. */
  method ValidateNoDuplicateFields(tokens: seq<Tok>) returns (ok: bool)
    ensures ok <==> exists t :: NoDuplicates(t) && Tokens(t) == tokens
  {
    var decoder := new Decoder(tokens);
    var consumed := decoder.ConsumeValue();
    CheckIsExact(tokens);
    ok := consumed && decoder.rest == [];
  }
}
