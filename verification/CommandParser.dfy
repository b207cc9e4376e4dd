/** `generalUtils.parseCmdline`: positional operands, then keyword operands, driven by tables.
    Python's `int()` is a parameter: any partial function from tokens to integers. */
module CommandParser {
  import opened Lists

  datatype Value = IntV(n: int) | StrV(s: string) | TrueV | ListV(items: seq<Value>)

  datatype PosOp = PosOp(name: string, key: string, required: bool, isInt: bool)

  /** `count` is how many values follow the keyword; negative means all remaining ones. */
  datatype KeyOp = KeyOp(key: string, count: int, isInt: bool)

  type Parms = map<string, Value>
  type KeyTable = map<string, KeyOp>
  type IntParser = string -> Option<int>

  /** `code` is the number of the reported message, 0 for none. */
  datatype Outcome = Outcome(parms: Parms, argPos: nat, code: nat)

  // ---------- specification ----------

  /** One token read as a value of the declared type. */
  function Convert(toInt: IntParser, isInt: bool, token: string): Option<Value> {
    if !isInt then Some(StrV(token))
    else match toInt(token) case Some(n) => Some(IntV(n)) case None => None
  }

  function Positional(toInt: IntParser, ops: seq<PosOp>, req: seq<string>, cur: nat, parms: Parms,
                      pos: nat): (r: Outcome)
    requires cur <= |ops|
    ensures pos <= |req| ==> pos <= r.argPos <= |req|
    decreases |ops| - cur
  {
    if pos < |req| && cur < |ops| then
      match Convert(toInt, ops[cur].isInt, req[pos])
      case None => Outcome(parms, pos, 1)
      case Some(v) => Positional(toInt, ops, req, cur + 1, parms[ops[cur].key := v], pos + 1)
    else if cur < |ops| && ops[cur].required then Outcome(parms, pos, 2)
    else Outcome(parms, pos, 0)
  }

  /** The values read from `tokens` up to the first that does not convert. */
  function Converted(toInt: IntParser, isInt: bool, tokens: seq<string>): (r: seq<Value>)
    ensures |r| <= |tokens|
  {
    if tokens == [] then []
    else
      var init := Converted(toInt, isInt, tokens[..|tokens| - 1]);
      var v := Convert(toInt, isInt, tokens[|tokens| - 1]);
      if |init| == |tokens| - 1 && v.Some? then init + [v.value] else init
  }

  /** How many values a keyword takes, given how many tokens follow it. */
  function Wanted(op: KeyOp, rest: nat): nat {
    if op.count >= 0 then op.count else if rest == 0 then 1 else rest
  }

  predicate AsList(op: KeyOp) {
    op.count < 0 || op.count > 1
  }

  function Stored(op: KeyOp, values: seq<Value>, parms: Parms): Parms {
    if AsList(op) then parms[op.key := ListV(values)]
    else if values != [] then parms[op.key := values[|values| - 1]]
    else parms
  }

  /** One recognised keyword, from the token after it. */
  function Keyword(toInt: IntParser, op: KeyOp, req: seq<string>, parms: Parms, from: nat): (r: Outcome)
    requires from <= |req|
    ensures from <= r.argPos <= |req|
  {
    var n := Wanted(op, |req| - from);
    if op.count == 0 then Outcome(parms[op.key := TrueV], from, 0)
    else if from + n > |req| then Outcome(parms, from, 3)
    else
      var values := Converted(toInt, op.isInt, req[from..from + n]);
      Outcome(Stored(op, values, parms), from + |values|, if |values| < n then 4 else 0)
  }

  function Keywords(toInt: IntParser, table: KeyTable, req: seq<string>, parms: Parms, pos: nat): (r: Outcome)
    ensures pos <= |req| ==> pos <= r.argPos <= |req|
    decreases |req| - pos
  {
    if pos >= |req| then Outcome(parms, pos, 0)
    else if req[pos] !in table then Outcome(parms, pos, 6)
    else
      var one := Keyword(toInt, table[req[pos]], req, parms, pos + 1);
      if one.code != 0 then one else Keywords(toInt, table, req, one.parms, one.argPos)
  }

  /** The whole command line; `None` stands for a subfunction missing from a table. */
  function Parsed(toInt: IntParser, ops: Option<seq<PosOp>>, table: Option<KeyTable>, req: seq<string>,
                  parms: Parms, pos: nat): (r: Outcome)
    ensures pos <= |req| ==> pos <= r.argPos <= |req|
  {
    var first := if ops.Some? then Positional(toInt, ops.value, req, 0, parms, pos) else Outcome(parms, pos, 0);
    if first.code == 0 && table.Some? then Keywords(toInt, table.value, req, first.parms, first.argPos) else first
  }

  // ---------- the parser ----------

  class RequestHandle {
    const request: seq<string>
    var parms: Parms
    var argPos: nat
    var code: nat

    constructor (request: seq<string>, argPos: nat)
      ensures this.request == request && parms == map[] && this.argPos == argPos && code == 0
    {
      this.request, this.argPos := request, argPos;
      parms, code := map[], 0;
    }

    function View(): Outcome
      reads this
    {
      Outcome(parms, argPos, code)
    }

    method ParsePositional(toInt: IntParser, ops: seq<PosOp>)
      requires code == 0
      modifies this
      ensures View() == Positional(toInt, ops, request, 0, old(parms), old(argPos))
    {
      var cur := 0;
      while argPos < |request| && cur < |ops|
        invariant cur <= |ops| && code == 0
        invariant Positional(toInt, ops, request, cur, parms, argPos)
               == Positional(toInt, ops, request, 0, old(parms), old(argPos))
        decreases |ops| - cur
      {
        var key := ops[cur].key;
        if ops[cur].isInt {
          var n := toInt(request[argPos]);
          if n.None? {
            code := 1;
            break;
          }
          parms := parms[key := IntV(n.value)];
        } else {
          parms := parms[key := StrV(request[argPos])];
        }
        cur := cur + 1;
        argPos := argPos + 1;
      }
      if argPos >= |request| && cur < |ops| && ops[cur].required {
        code := 2;
      }
    }

    /** `rh.parms[key] = value`, or appending it to the list under the key. */
    method StoreValue(op: KeyOp, value: Value, ghost values: seq<Value>, ghost before: Parms)
      requires parms == Stored(op, values, before)
      modifies this`parms
      ensures parms == Stored(op, values + [value], before)
    {
      if AsList(op) {
        parms := parms[op.key := ListV(parms[op.key].items + [value])];
      } else {
        parms := parms[op.key := value];
      }
    }

    /** The inner loop over the values of one keyword. */
    method ReadValues(toInt: IntParser, op: KeyOp, n: nat)
      requires argPos + n <= |request| && code == 0 && n >= 1
      modifies this
      ensures
        var values := Converted(toInt, op.isInt, request[old(argPos)..old(argPos) + n]);
        View() == Outcome(Stored(op, values, old(parms)), old(argPos) + |values|, if |values| < n then 4 else 0)
    {
      ghost var from, before, values := argPos, parms, [];
      ghost var tokens := request[from..from + n];
      if AsList(op) {
        parms := parms[op.key := ListV([])];
      }
      for i := 0 to n
        invariant argPos == from + i && code == 0
        invariant values == Converted(toInt, op.isInt, tokens[..i]) && |values| == i
        invariant parms == Stored(op, values, before)
      {
        assert tokens[..i + 1][..i] == tokens[..i];
        assert tokens[i] == request[argPos];
        var value := StrV(request[argPos]);
        if op.isInt {
          var k := toInt(request[argPos]);
          if k.None? {
            ConvertedStops(toInt, op.isInt, tokens, i);
            code := 4;
            return;
          }
          value := IntV(k.value);
        }
        StoreValue(op, value, values, before);
        values := values + [value];
        argPos := argPos + 1;
      }
      assert tokens[..n] == tokens;
    }

    method ParseKeyword(toInt: IntParser, op: KeyOp)
      requires argPos <= |request| && code == 0
      modifies this
      ensures View() == Keyword(toInt, op, request, old(parms), old(argPos))
    {
      if op.count == 0 {
        parms := parms[op.key := TrueV];
        return;
      }
      var n := op.count;
      if op.count < 0 {
        n := |request| - argPos;
        if n == 0 {
          n := 1;
        }
      }
      if n + argPos > |request| {
        code := 3;
        return;
      }
      ReadValues(toInt, op, n);
    }

    method ParseKeywords(toInt: IntParser, table: KeyTable)
      requires code == 0
      modifies this
      ensures View() == Keywords(toInt, table, request, old(parms), old(argPos))
    {
      while argPos < |request|
        invariant code == 0
        invariant Keywords(toInt, table, request, parms, argPos)
               == Keywords(toInt, table, request, old(parms), old(argPos))
        decreases |request| - argPos
      {
        if request[argPos] in table {
          var keyword := request[argPos];
          argPos := argPos + 1;
          if keyword in table {
            ParseKeyword(toInt, table[keyword]);
            if code != 0 {
              return;
            }
          } else {
            // the report of message 0005 is unreachable
            assert false;
          }
        } else {
          code := 6;
          return;
        }
      }
    }

    /** Nothing is parsed after an earlier error; both loops end because each round consumes a token. */
    method ParseCmdline(toInt: IntParser, ops: Option<seq<PosOp>>, table: Option<KeyTable>) returns (failed: bool)
      modifies this
      ensures old(code) != 0 ==> View() == old(View())
      ensures old(code) == 0 ==> View() == Parsed(toInt, ops, table, request, old(parms), old(argPos))
      ensures failed <==> code != 0
    {
      if code == 0 && ops.Some? {
        ParsePositional(toInt, ops.value);
      }
      if code == 0 && table.Some? {
        ParseKeywords(toInt, table.value);
      }
      failed := code != 0;
    }
  }

  lemma {:induction false} ConvertedStops(toInt: IntParser, isInt: bool, tokens: seq<string>, i: nat)
    requires i < |tokens| && |Converted(toInt, isInt, tokens[..i])| == i && Convert(toInt, isInt, tokens[i]).None?
    ensures Converted(toInt, isInt, tokens) == Converted(toInt, isInt, tokens[..i])
    decreases |tokens|
  {
    var init := tokens[..|tokens| - 1];
    if i < |init| {
      assert init[..i] == tokens[..i];
      ConvertedStops(toInt, isInt, init, i);
    } else {
      assert init == tokens[..i];
    }
  }

  // ---------- round trip ----------

  /** What a keyword carries in a command line: nothing, one value, or several. */
  datatype Given = Nothing | One(value: Value) | Many(values: seq<Value>)

  predicate Typed(isInt: bool, v: Value) {
    if isInt then v.IntV? else v.StrV?
  }

  predicate GivenFits(op: KeyOp, g: Given) {
    match g
    case Nothing => op.count == 0
    case One(v) => op.count == 1 && Typed(op.isInt, v)
    case Many(vs) =>
      && AsList(op) && vs != [] && (op.count > 1 ==> |vs| == op.count)
      && forall i :: 0 <= i < |vs| ==> Typed(op.isInt, vs[i])
  }

  function StoredAs(g: Given): Value {
    match g
    case Nothing => TrueV
    case One(v) => v
    case Many(vs) => ListV(vs)
  }

  function Show(showInt: int -> string, v: Value): string {
    match v
    case IntV(n) => showInt(n)
    case StrV(s) => s
    case _ => ""
  }

  function ShowAll(showInt: int -> string, vs: seq<Value>): (r: seq<string>)
    ensures |r| == |vs| && forall i :: 0 <= i < |vs| ==> r[i] == Show(showInt, vs[i])
  {
    seq(|vs|, i requires 0 <= i < |vs| => Show(showInt, vs[i]))
  }

  function GivenTokens(showInt: int -> string, g: Given): seq<string> {
    match g
    case Nothing => []
    case One(v) => [Show(showInt, v)]
    case Many(vs) => ShowAll(showInt, vs)
  }

  /** From `pos` on, the command line is the canonical text of the keyword operands. */
  predicate Spells(showInt: int -> string, ks: seq<(string, Given)>, req: seq<string>, pos: nat)
    decreases |ks|
  {
    if ks == [] then pos == |req|
    else
      var tokens := GivenTokens(showInt, ks[0].1);
      var next := pos + 1 + |tokens|;
      next <= |req| && req[pos] == ks[0].0 && req[pos + 1..next] == tokens && Spells(showInt, ks[1..], req, next)
  }

  /** Known keywords with fitting values, the take-the-rest keyword only at the end. */
  predicate KeysFit(table: KeyTable, ks: seq<(string, Given)>) {
    forall j :: 0 <= j < |ks| ==>
      ks[j].0 in table && GivenFits(table[ks[j].0], ks[j].1) && (table[ks[j].0].count < 0 ==> j == |ks| - 1)
  }

  function ApplyPos(ops: seq<PosOp>, vals: seq<Value>, from: nat, parms: Parms): Parms
    requires from <= |vals| <= |ops|
    decreases |vals| - from
  {
    if from == |vals| then parms else ApplyPos(ops, vals, from + 1, parms[ops[from].key := vals[from]])
  }

  predicate KnownKeys(table: KeyTable, ks: seq<(string, Given)>) {
    forall j :: 0 <= j < |ks| ==> ks[j].0 in table
  }

  function ApplyKeys(table: KeyTable, ks: seq<(string, Given)>, parms: Parms): Parms
    requires KnownKeys(table, ks)
  {
    if ks == [] then parms
    else
      ApplyKeys(table, ks[1..], parms[table[ks[0].0].key := StoredAs(ks[0].1)])
  }

  /** Printing an integer and reading it back gives the integer. */
  ghost predicate Inverse(toInt: IntParser, showInt: int -> string) {
    forall n :: toInt(showInt(n)) == Some(n)
  }

  lemma KeysFitTail(table: KeyTable, ks: seq<(string, Given)>)
    requires KeysFit(table, ks) && ks != []
    ensures KeysFit(table, ks[1..])
    ensures table[ks[0].0].count < 0 ==> ks[1..] == []
  {
  }

  lemma ShowConverts(toInt: IntParser, showInt: int -> string, isInt: bool, v: Value)
    requires Inverse(toInt, showInt) && Typed(isInt, v)
    ensures Convert(toInt, isInt, Show(showInt, v)) == Some(v)
  {
  }

  // ---------- what a command line reads as ----------

  /** The first positional tokens read as `vals`, and no required operand is missing behind them. */
  predicate PosReads(toInt: IntParser, ops: seq<PosOp>, vals: seq<Value>, req: seq<string>, pos: nat) {
    && |vals| <= |ops| && pos + |vals| <= |req| && (|vals| < |ops| ==> pos + |vals| == |req| && !ops[|vals|].required)
    && forall i :: 0 <= i < |vals| ==> Convert(toInt, ops[i].isInt, req[pos + i]) == Some(vals[i])
  }

  function Carried(g: Given): seq<Value> {
    match g
    case Nothing => []
    case One(v) => [v]
    case Many(vs) => vs
  }

  /** The tokens from `from` on read as the values of the keyword. */
  predicate GivenReads(toInt: IntParser, op: KeyOp, g: Given, req: seq<string>, from: nat) {
    var n := |Carried(g)|;
    && GivenFits(op, g) && from + n <= |req| && (op.count < 0 ==> from + n == |req|)
    && AllRead(toInt, op.isInt, req[from..from + n], Carried(g))
  }

  /** Each token reads as the value at its position. */
  predicate AllRead(toInt: IntParser, isInt: bool, tokens: seq<string>, vs: seq<Value>) {
    |tokens| == |vs| && forall i :: 0 <= i < |vs| ==> Convert(toInt, isInt, tokens[i]) == Some(vs[i])
  }

  /** The tokens from `pos` up to `stop` read as the keyword operands `ks`. */
  predicate ReadsTo(toInt: IntParser, table: KeyTable, ks: seq<(string, Given)>, req: seq<string>, pos: nat, stop: nat)
    decreases |ks|
  {
    if ks == [] then pos == stop
    else
      && pos < |req| && req[pos] == ks[0].0 && ks[0].0 in table
      && GivenReads(toInt, table[ks[0].0], ks[0].1, req, pos + 1)
      && ReadsTo(toInt, table, ks[1..], req, pos + 1 + |Carried(ks[0].1)|, stop)
  }

  lemma {:induction false} ConvertedReads(toInt: IntParser, isInt: bool, tokens: seq<string>, vs: seq<Value>)
    requires AllRead(toInt, isInt, tokens, vs)
    ensures Converted(toInt, isInt, tokens) == vs
  {
    if vs != [] {
      ConvertedReads(toInt, isInt, tokens[..|vs| - 1], vs[..|vs| - 1]);
    }
  }

  lemma {:induction false} ConvertedPrefix(toInt: IntParser, isInt: bool, tokens: seq<string>)
    ensures var vs := Converted(toInt, isInt, tokens);
      && AllRead(toInt, isInt, tokens[..|vs|], vs)
      && (|vs| < |tokens| <==> HasUnreadable(toInt, isInt, tokens))
  {
    if tokens != [] {
      var init, last := tokens[..|tokens| - 1], tokens[|tokens| - 1];
      ConvertedPrefix(toInt, isInt, init);
      var vs := Converted(toInt, isInt, init);
      assert tokens[..|vs|] == init[..|vs|];
      assert HasUnreadable(toInt, isInt, tokens) <==>
             HasUnreadable(toInt, isInt, init) || Convert(toInt, isInt, last).None? by {
        assert forall i :: 0 <= i < |init| ==> init[i] == tokens[i];
      }
    }
  }

  /** Positional operands come back as read. */
  lemma {:induction false} PositionalReads(toInt: IntParser, ops: seq<PosOp>, vals: seq<Value>, req: seq<string>,
                                           pos: nat, cur: nat, parms: Parms)
    requires PosReads(toInt, ops, vals, req, pos) && cur <= |vals|
    ensures Positional(toInt, ops, req, cur, parms, pos + cur)
            == Outcome(ApplyPos(ops, vals, cur, parms), pos + |vals|, 0)
    decreases |vals| - cur
  {
    if cur < |vals| {
      PositionalReads(toInt, ops, vals, req, pos, cur + 1, parms[ops[cur].key := vals[cur]]);
    }
  }

  lemma KeywordValues(toInt: IntParser, op: KeyOp, vs: seq<Value>, req: seq<string>, from: nat, parms: Parms)
    requires op.count != 0 && from + |vs| <= |req| && |vs| == Wanted(op, |req| - from)
    requires AllRead(toInt, op.isInt, req[from..from + |vs|], vs)
    ensures Keyword(toInt, op, req, parms, from) == Outcome(Stored(op, vs, parms), from + |vs|, 0)
  {
    ConvertedReads(toInt, op.isInt, req[from..from + |vs|], vs);
  }

  /** One keyword with its values is read back, leaving the cursor behind them. */
  lemma KeywordReads(toInt: IntParser, op: KeyOp, g: Given, req: seq<string>, from: nat, parms: Parms)
    requires from <= |req| && GivenReads(toInt, op, g, req, from)
    ensures Keyword(toInt, op, req, parms, from) == Outcome(parms[op.key := StoredAs(g)], from + |Carried(g)|, 0)
  {
    match g
    case Nothing =>
    case One(v) => KeywordValues(toInt, op, [v], req, from, parms);
    case Many(vs) => KeywordValues(toInt, op, vs, req, from, parms);
  }

  /** A keyword that reads as `g` is skipped, with its values stored. */
  lemma KeywordSkipped(toInt: IntParser, table: KeyTable, g: Given, req: seq<string>, pos: nat, parms: Parms)
    requires pos < |req| && req[pos] in table && GivenReads(toInt, table[req[pos]], g, req, pos + 1)
    ensures Keywords(toInt, table, req, parms, pos)
            == Keywords(toInt, table, req, parms[table[req[pos]].key := StoredAs(g)], pos + 1 + |Carried(g)|)
  {
    KeywordReads(toInt, table[req[pos]], g, req, pos + 1, parms);
  }

  lemma {:induction false} ReadKeysKnown(toInt: IntParser, table: KeyTable, ks: seq<(string, Given)>, req: seq<string>,
                                         pos: nat, stop: nat)
    requires ReadsTo(toInt, table, ks, req, pos, stop)
    ensures KnownKeys(table, ks)
    decreases |ks|
  {
    if ks != [] {
      ReadKeysKnown(toInt, table, ks[1..], req, pos + 1 + |Carried(ks[0].1)|, stop);
      forall j | 0 <= j < |ks| ensures ks[j].0 in table { if j > 0 { assert ks[j] == ks[1..][j - 1]; } }
    }
  }

  lemma ApplyKeysCons(table: KeyTable, ks: seq<(string, Given)>, parms: Parms)
    requires ks != [] && KnownKeys(table, ks)
    ensures KnownKeys(table, ks[1..])
    ensures ApplyKeys(table, ks, parms) == ApplyKeys(table, ks[1..], parms[table[ks[0].0].key := StoredAs(ks[0].1)])
  {
  }

  /** Keyword operands that read as `ks` are skipped, with their values stored. */
  lemma {:induction false} KeywordsRead(toInt: IntParser, table: KeyTable, ks: seq<(string, Given)>, req: seq<string>,
                                        pos: nat, stop: nat, parms: Parms)
    requires ReadsTo(toInt, table, ks, req, pos, stop) && KnownKeys(table, ks)
    ensures Keywords(toInt, table, req, parms, pos) == Keywords(toInt, table, req, ApplyKeys(table, ks, parms), stop)
    decreases |ks|
  {
    if ks != [] {
      var g, stored := ks[0].1, parms[table[ks[0].0].key := StoredAs(ks[0].1)];
      ApplyKeysCons(table, ks, parms);
      KeywordSkipped(toInt, table, g, req, pos, parms);
      KeywordsRead(toInt, table, ks[1..], req, pos + 1 + |Carried(g)|, stop, stored);
    }
  }

  /** Why parsing stops at `stop`: the end, an unknown keyword, too few tokens, or a token that is no integer. */
  predicate StopsWith(toInt: IntParser, table: KeyTable, req: seq<string>, stop: nat, code: nat) {
    if stop >= |req| then stop == |req| && code == 0
    else if req[stop] !in table then code == 6
    else
      var op, from := table[req[stop]], stop + 1;
      var n := Wanted(op, |req| - from);
      && op.count != 0
      && if from + n > |req| then code == 3
         else code == 4 && HasUnreadable(toInt, op.isInt, req[from..from + n])
  }

  predicate HasUnreadable(toInt: IntParser, isInt: bool, tokens: seq<string>) {
    exists i :: 0 <= i < |tokens| && Convert(toInt, isInt, tokens[i]).None?
  }

  lemma StopCode(toInt: IntParser, table: KeyTable, req: seq<string>, stop: nat, code: nat, parms: Parms)
    requires StopsWith(toInt, table, req, stop, code)
    ensures Keywords(toInt, table, req, parms, stop).code == code
  {
    if code == 4 {
      var op, from := table[req[stop]], stop + 1;
      var tokens := req[from..from + Wanted(op, |req| - from)];
      ConvertedPrefix(toInt, op.isInt, tokens);
    }
  }

  /** At a token there is either a keyword with its values or one of these reasons to stop. */
  lemma KeywordCase(toInt: IntParser, table: KeyTable, req: seq<string>, pos: nat) returns (g: Option<Given>, code: nat)
    requires pos < |req|
    ensures g.None? ==> StopsWith(toInt, table, req, pos, code)
    ensures g.Some? ==> req[pos] in table && GivenReads(toInt, table[req[pos]], g.value, req, pos + 1)
  {
    g, code := None, 6;
    if req[pos] in table {
      var op, from := table[req[pos]], pos + 1;
      var n := Wanted(op, |req| - from);
      if op.count == 0 {
        g := Some(Nothing);
      } else if from + n > |req| {
        code := 3;
      } else {
        code := 4;
        g := ValuesCase(toInt, op, req[from..from + n]);
      }
    }
  }

  /** The tokens wanted by a keyword all read as values, or one of them does not. */
  lemma ValuesCase(toInt: IntParser, op: KeyOp, tokens: seq<string>) returns (g: Option<Given>)
    requires op.count != 0 && tokens != [] && (op.count > 0 ==> |tokens| == op.count)
    ensures g.None? <==> HasUnreadable(toInt, op.isInt, tokens)
    ensures g.Some? ==> GivenFits(op, g.value) && AllRead(toInt, op.isInt, tokens, Carried(g.value))
  {
    var vs := Converted(toInt, op.isInt, tokens);
    ConvertedPrefix(toInt, op.isInt, tokens);
    if |vs| < |tokens| {
      g := None;
    } else {
      assert tokens[..|vs|] == tokens;
      ReadTyped(toInt, op.isInt, tokens, vs);
      g := Some(if AsList(op) then Many(vs) else One(vs[0]));
      assert !AsList(op) ==> vs == [vs[0]];
    }
  }

  lemma ReadTyped(toInt: IntParser, isInt: bool, tokens: seq<string>, vs: seq<Value>)
    requires AllRead(toInt, isInt, tokens, vs)
    ensures forall i :: 0 <= i < |vs| ==> Typed(isInt, vs[i])
  {
    forall i | 0 <= i < |vs| ensures Typed(isInt, vs[i]) { assert Convert(toInt, isInt, tokens[i]) == Some(vs[i]); }
  }

  /** Tokens read as some keyword operands, up to one of these reasons to stop. */
  lemma {:induction false} KeywordsStop(toInt: IntParser, table: KeyTable, req: seq<string>, pos: nat)
    returns (ks: seq<(string, Given)>, stop: nat, code: nat)
    requires pos <= |req|
    ensures EndsWith(toInt, table, ks, req, pos, stop, code)
    decreases |req| - pos
  {
    ks, stop, code := [], pos, 0;
    if pos < |req| {
      var g;
      g, code := KeywordCase(toInt, table, req, pos);
      if g.Some? {
        var rest;
        rest, stop, code := KeywordsStop(toInt, table, req, pos + 1 + |Carried(g.value)|);
        ks := [(req[pos], g.value)] + rest;
        assert ks[1..] == rest;
      }
    }
  }

  /** The tokens read as `ks` up to `stop`, which is where parsing ends with this message. */
  ghost predicate EndsWith(toInt: IntParser, table: KeyTable, ks: seq<(string, Given)>, req: seq<string>,
                           pos: nat, stop: nat, code: nat) {
    ReadsTo(toInt, table, ks, req, pos, stop) && StopsWith(toInt, table, req, stop, code)
  }

  /** Each message is reported exactly when the tokens read as keyword operands up to its cause, and none
      exactly when they read as keyword operands to the end. */
  lemma KeywordMessages(toInt: IntParser, table: KeyTable, req: seq<string>, pos: nat, parms: Parms, code: nat)
    requires pos <= |req|
    ensures Keywords(toInt, table, req, parms, pos).code == code <==>
            exists ks, stop :: EndsWith(toInt, table, ks, req, pos, stop, code)
  {
    var ks, stop, c := KeywordsStop(toInt, table, req, pos);
    EndCode(toInt, table, ks, req, pos, stop, c, parms);
    if ks, stop :| EndsWith(toInt, table, ks, req, pos, stop, code) {
      EndCode(toInt, table, ks, req, pos, stop, code, parms);
    }
  }

  lemma EndCode(toInt: IntParser, table: KeyTable, ks: seq<(string, Given)>, req: seq<string>, pos: nat, stop: nat,
                code: nat, parms: Parms)
    requires EndsWith(toInt, table, ks, req, pos, stop, code)
    ensures Keywords(toInt, table, req, parms, pos).code == code
  {
    ReadKeysKnown(toInt, table, ks, req, pos, stop);
    KeywordsRead(toInt, table, ks, req, pos, stop, parms);
    StopCode(toInt, table, req, stop, code, ApplyKeys(table, ks, parms));
  }

  /** The token of positional operand `i` does not convert. */
  predicate Unreadable(toInt: IntParser, ops: seq<PosOp>, req: seq<string>, pos: nat, i: nat) {
    i < |ops| && pos + i < |req| && Convert(toInt, ops[i].isInt, req[pos + i]).None?
  }

  /** From operand `cur` on: message 1 at the first token that does not convert, message 2 when all tokens are
      used up before a required operand, otherwise the values read. */
  lemma {:induction false} PositionalStops(toInt: IntParser, ops: seq<PosOp>, req: seq<string>, cur: nat, parms: Parms,
                                           pos: nat)
    requires cur <= |ops| && pos + cur <= |req| && forall i: nat :: i < cur ==> !Unreadable(toInt, ops, req, pos, i)
    ensures var r := Positional(toInt, ops, req, cur, parms, pos + cur);
      && (r.code == 1 <==> exists i: nat :: Unreadable(toInt, ops, req, pos, i))
      && (r.code == 1 ==> Unreadable(toInt, ops, req, pos, r.argPos - pos))
      && (r.code == 1 ==> forall i: nat :: i < r.argPos - pos ==> !Unreadable(toInt, ops, req, pos, i))
      && (r.code == 2 <==> (forall i: nat :: !Unreadable(toInt, ops, req, pos, i))
                           && |req| - pos < |ops| && ops[|req| - pos].required)
      && r.code <= 2
    decreases |ops| - cur
  {
    if pos + cur < |req| && cur < |ops| {
      var v := Convert(toInt, ops[cur].isInt, req[pos + cur]);
      if v.Some? {
        PositionalStops(toInt, ops, req, cur + 1, parms[ops[cur].key := v.value], pos);
      } else {
        assert Unreadable(toInt, ops, req, pos, cur);
      }
    }
  }

  /** The exact conditions of messages 1 and 2. */
  lemma PositionalMessages(toInt: IntParser, ops: seq<PosOp>, req: seq<string>, parms: Parms, pos: nat)
    requires pos <= |req|
    ensures var r := Positional(toInt, ops, req, 0, parms, pos);
      && (r.code == 1 <==> exists i: nat :: Unreadable(toInt, ops, req, pos, i))
      && (r.code == 2 <==> (forall i: nat :: !Unreadable(toInt, ops, req, pos, i))
                           && |req| - pos < |ops| && ops[|req| - pos].required)
      && (r.code == 0 <==> exists vals :: PosReads(toInt, ops, vals, req, pos))
  {
    PositionalStops(toInt, ops, req, 0, parms, pos);
    var r := Positional(toInt, ops, req, 0, parms, pos);
    if r.code == 0 {
      var n := if |req| - pos < |ops| then |req| - pos else |ops|;
      forall i: nat | i < n ensures Convert(toInt, ops[i].isInt, req[pos + i]).Some? {
        assert !Unreadable(toInt, ops, req, pos, i);
      }
      var vals := seq(n, i requires 0 <= i < n => Convert(toInt, ops[i].isInt, req[pos + i]).value);
      assert PosReads(toInt, ops, vals, req, pos);
    }
    if vals :| PosReads(toInt, ops, vals, req, pos) {
      PositionalReads(toInt, ops, vals, req, pos, 0, parms);
    }
  }

  /** The command line from `pos` on reads as these operands, to its end. */
  ghost predicate ReadsAs(toInt: IntParser, ops: seq<PosOp>, vals: seq<Value>, table: KeyTable,
                          ks: seq<(string, Given)>,
                          req: seq<string>, pos: nat) {
    PosReads(toInt, ops, vals, req, pos) && ReadsTo(toInt, table, ks, req, pos + |vals|, |req|)
  }

  lemma TwoPhases(toInt: IntParser, ops: seq<PosOp>, table: KeyTable, req: seq<string>, parms: Parms, pos: nat,
                  middle: Parms, stop: nat)
    requires Positional(toInt, ops, req, 0, parms, pos) == Outcome(middle, stop, 0)
    ensures Parsed(toInt, Some(ops), Some(table), req, parms, pos) == Keywords(toInt, table, req, middle, stop)
  {
  }

  /** A command line that reads as some operands is accepted with exactly these. */
  lemma ReadingAccepted(toInt: IntParser, ops: seq<PosOp>, vals: seq<Value>, table: KeyTable, ks: seq<(string, Given)>,
                        req: seq<string>, pos: nat, parms: Parms)
    requires ReadsAs(toInt, ops, vals, table, ks, req, pos)
    ensures KnownKeys(table, ks)
    ensures Parsed(toInt, Some(ops), Some(table), req, parms, pos)
            == Outcome(ApplyKeys(table, ks, ApplyPos(ops, vals, 0, parms)), |req|, 0)
  {
    var middle := ApplyPos(ops, vals, 0, parms);
    PositionalReads(toInt, ops, vals, req, pos, 0, parms);
    ReadKeysKnown(toInt, table, ks, req, pos + |vals|, |req|);
    KeywordsRead(toInt, table, ks, req, pos + |vals|, |req|, middle);
    TwoPhases(toInt, ops, table, req, parms, pos, middle, pos + |vals|);
    assert Keywords(toInt, table, req, ApplyKeys(table, ks, middle), |req|)
        == Outcome(ApplyKeys(table, ks, middle), |req|, 0);
  }

  lemma AcceptedKeywords(toInt: IntParser, table: KeyTable, req: seq<string>, pos: nat, parms: Parms)
    returns (ks: seq<(string, Given)>)
    requires pos <= |req| && Keywords(toInt, table, req, parms, pos).code == 0
    ensures ReadsTo(toInt, table, ks, req, pos, |req|)
  {
    var stop, code;
    ks, stop, code := KeywordsStop(toInt, table, req, pos);
    EndCode(toInt, table, ks, req, pos, stop, code, parms);
    assert stop == |req|;
  }

  lemma AcceptedReads(toInt: IntParser, ops: seq<PosOp>, table: KeyTable, req: seq<string>, parms: Parms, pos: nat)
    returns (vals: seq<Value>, ks: seq<(string, Given)>)
    requires pos <= |req| && Parsed(toInt, Some(ops), Some(table), req, parms, pos).code == 0
    ensures ReadsAs(toInt, ops, vals, table, ks, req, pos)
  {
    PositionalMessages(toInt, ops, req, parms, pos);
    vals :| PosReads(toInt, ops, vals, req, pos);
    PositionalReads(toInt, ops, vals, req, pos, 0, parms);
    var middle := ApplyPos(ops, vals, 0, parms);
    TwoPhases(toInt, ops, table, req, parms, pos, middle, pos + |vals|);
    ks := AcceptedKeywords(toInt, table, req, pos + |vals|, middle);
  }

  /** A command line is accepted if and only if it reads as some operands. */
  lemma AcceptedExactly(toInt: IntParser, ops: seq<PosOp>, table: KeyTable, req: seq<string>, parms: Parms, pos: nat)
    requires pos <= |req|
    ensures Parsed(toInt, Some(ops), Some(table), req, parms, pos).code == 0 <==>
            exists vals, ks :: ReadsAs(toInt, ops, vals, table, ks, req, pos)
  {
    if Parsed(toInt, Some(ops), Some(table), req, parms, pos).code == 0 {
      var vals, ks := AcceptedReads(toInt, ops, table, req, parms, pos);
    }
    if vals, ks :| ReadsAs(toInt, ops, vals, table, ks, req, pos) {
      ReadingAccepted(toInt, ops, vals, table, ks, req, pos, parms);
    }
  }

  /** A subfunction without positional or without keyword operands skips that phase. */
  lemma PhasesSkipped(toInt: IntParser, ops: seq<PosOp>, table: KeyTable, req: seq<string>, parms: Parms, pos: nat)
    requires pos <= |req|
    ensures Parsed(toInt, None, None, req, parms, pos) == Outcome(parms, pos, 0)
    ensures Parsed(toInt, Some(ops), None, req, parms, pos).code == 0 <==>
            exists vals :: PosReads(toInt, ops, vals, req, pos)
    ensures Parsed(toInt, None, Some(table), req, parms, pos).code == 0 <==>
            exists ks, stop :: EndsWith(toInt, table, ks, req, pos, stop, 0)
  {
    PositionalMessages(toInt, ops, req, parms, pos);
    KeywordMessages(toInt, table, req, pos, parms, 0);
  }

  // ---------- canonical text ----------

  /** Canonical text reads as what was written. */
  lemma {:induction false} SpellsReads(toInt: IntParser, showInt: int -> string, table: KeyTable,
                                       ks: seq<(string, Given)>, req: seq<string>, pos: nat)
    requires Inverse(toInt, showInt) && KeysFit(table, ks) && Spells(showInt, ks, req, pos)
    ensures ReadsTo(toInt, table, ks, req, pos, |req|)
    decreases |ks|
  {
    if ks != [] {
      var g, op := ks[0].1, table[ks[0].0];
      KeysFitTail(table, ks);
      SpellsReads(toInt, showInt, table, ks[1..], req, pos + 1 + |GivenTokens(showInt, g)|);
      GivenSpelled(toInt, showInt, op, g, req, pos + 1);
    }
  }

  lemma GivenSpelled(toInt: IntParser, showInt: int -> string, op: KeyOp, g: Given, req: seq<string>, from: nat)
    requires Inverse(toInt, showInt) && GivenFits(op, g)
    requires var tokens := GivenTokens(showInt, g);
      && from + |tokens| <= |req| && req[from..from + |tokens|] == tokens
      && (op.count < 0 ==> from + |tokens| == |req|)
    ensures |Carried(g)| == |GivenTokens(showInt, g)| && GivenReads(toInt, op, g, req, from)
  {
    var tokens, vs := GivenTokens(showInt, g), Carried(g);
    assert tokens == ShowAll(showInt, vs);
    forall i | 0 <= i < |vs| ensures Convert(toInt, op.isInt, tokens[i]) == Some(vs[i]) {
      ShowConverts(toInt, showInt, op.isInt, vs[i]);
    }
  }

  lemma PositionalSpelled(toInt: IntParser, showInt: int -> string, ops: seq<PosOp>, vals: seq<Value>,
                          req: seq<string>, pos: nat)
    requires Inverse(toInt, showInt) && |vals| <= |ops| && pos + |vals| <= |req|
    requires req[pos..pos + |vals|] == ShowAll(showInt, vals)
    requires forall i :: 0 <= i < |vals| ==> Typed(ops[i].isInt, vals[i])
    requires |vals| < |ops| ==> pos + |vals| == |req| && !ops[|vals|].required
    ensures PosReads(toInt, ops, vals, req, pos)
  {
    forall i | 0 <= i < |vals| ensures Convert(toInt, ops[i].isInt, req[pos + i]) == Some(vals[i]) {
      assert req[pos + i] == ShowAll(showInt, vals)[i];
      ShowConverts(toInt, showInt, ops[i].isInt, vals[i]);
    }
  }

  /** The parms keys set by positional operands `from` on, respectively by keywords. */
  function PosKeys(ops: seq<PosOp>, from: nat, n: nat): set<string>
    requires from <= n <= |ops|
  {
    set i | from <= i < n :: ops[i].key
  }

  function KeyKeys(table: KeyTable, ks: seq<(string, Given)>): set<string>
    requires KeysFit(table, ks)
  {
    set j | 0 <= j < |ks| :: table[ks[j].0].key
  }

  predicate DistinctPos(ops: seq<PosOp>) {
    forall i, j :: 0 <= i < j < |ops| ==> ops[i].key != ops[j].key
  }

  predicate DistinctKeys(table: KeyTable, ks: seq<(string, Given)>)
    requires KeysFit(table, ks)
  {
    forall i, j :: 0 <= i < j < |ks| ==> table[ks[i].0].key != table[ks[j].0].key
  }

  lemma {:induction false} ApplyPosAt(ops: seq<PosOp>, vals: seq<Value>, from: nat, parms: Parms)
    requires from <= |vals| <= |ops| && DistinctPos(ops)
    ensures var r := ApplyPos(ops, vals, from, parms);
      && r.Keys == parms.Keys + PosKeys(ops, from, |vals|)
      && (forall i :: from <= i < |vals| ==> ops[i].key in r && r[ops[i].key] == vals[i])
      && (forall k :: k in parms && k !in PosKeys(ops, from, |vals|) ==> k in r && r[k] == parms[k])
    decreases |vals| - from
  {
    if from < |vals| {
      var next := parms[ops[from].key := vals[from]];
      ApplyPosAt(ops, vals, from + 1, next);
      assert PosKeys(ops, from, |vals|) == {ops[from].key} + PosKeys(ops, from + 1, |vals|);
      assert ops[from].key !in PosKeys(ops, from + 1, |vals|);
    }
  }

  lemma {:induction false} ApplyKeysAt(table: KeyTable, ks: seq<(string, Given)>, parms: Parms)
    requires KeysFit(table, ks) && DistinctKeys(table, ks)
    ensures var r := ApplyKeys(table, ks, parms);
      && r.Keys == parms.Keys + KeyKeys(table, ks)
      && (forall j :: 0 <= j < |ks| ==> table[ks[j].0].key in r && r[table[ks[j].0].key] == StoredAs(ks[j].1))
      && (forall k :: k in parms && k !in KeyKeys(table, ks) ==> k in r && r[k] == parms[k])
  {
    if ks != [] {
      var rest, key := ks[1..], table[ks[0].0].key;
      var next := parms[key := StoredAs(ks[0].1)];
      assert KeysFit(table, rest) && DistinctKeys(table, rest) by {
        assert forall j :: 0 <= j < |rest| ==> rest[j] == ks[j + 1];
      }
      ApplyKeysAt(table, rest, next);
      KeyKeysStep(table, ks);
      var r := ApplyKeys(table, ks, parms);
      forall j | 0 <= j < |ks| ensures table[ks[j].0].key in r && r[table[ks[j].0].key] == StoredAs(ks[j].1) {
        if j > 0 { assert rest[j - 1] == ks[j]; }
      }
    }
  }

  lemma KeyKeysStep(table: KeyTable, ks: seq<(string, Given)>)
    requires ks != [] && KeysFit(table, ks) && KeysFit(table, ks[1..]) && DistinctKeys(table, ks)
    ensures KeyKeys(table, ks) == {table[ks[0].0].key} + KeyKeys(table, ks[1..])
    ensures table[ks[0].0].key !in KeyKeys(table, ks[1..])
  {
    var rest := ks[1..];
    forall k | k in KeyKeys(table, ks) ensures k in {table[ks[0].0].key} + KeyKeys(table, rest) {
      var j :| 0 <= j < |ks| && table[ks[j].0].key == k;
      if j > 0 { assert rest[j - 1] == ks[j]; }
    }
    forall k | k in KeyKeys(table, rest) ensures k in KeyKeys(table, ks) && k != table[ks[0].0].key {
      var j :| 0 <= j < |rest| && table[rest[j].0].key == k;
      assert ks[j + 1] == rest[j];
    }
  }

  /** `r` is `parms` changed by exactly the given operands. */
  ghost predicate Assigns(ops: seq<PosOp>, vals: seq<Value>, table: KeyTable, ks: seq<(string, Given)>, parms: Parms,
                          r: Parms)
    requires |vals| <= |ops| && KeysFit(table, ks)
  {
    && r.Keys == parms.Keys + PosKeys(ops, 0, |vals|) + KeyKeys(table, ks)
    && (forall i :: 0 <= i < |vals| ==> ops[i].key in r && r[ops[i].key] == vals[i])
    && (forall j :: 0 <= j < |ks| ==> table[ks[j].0].key in r && r[table[ks[j].0].key] == StoredAs(ks[j].1))
    && (forall k :: k in parms && k !in PosKeys(ops, 0, |vals|) + KeyKeys(table, ks) ==> k in r && r[k] == parms[k])
  }

  lemma AppliedAssigns(ops: seq<PosOp>, vals: seq<Value>, table: KeyTable, ks: seq<(string, Given)>, parms: Parms)
    requires |vals| <= |ops| && KeysFit(table, ks) && DistinctPos(ops) && DistinctKeys(table, ks)
    requires PosKeys(ops, 0, |vals|) !! KeyKeys(table, ks)
    ensures Assigns(ops, vals, table, ks, parms, ApplyKeys(table, ks, ApplyPos(ops, vals, 0, parms)))
  {
    var first := ApplyPos(ops, vals, 0, parms);
    var r := ApplyKeys(table, ks, first);
    ApplyPosAt(ops, vals, 0, parms);
    ApplyKeysAt(table, ks, first);
    forall i | 0 <= i < |vals| ensures ops[i].key in r && r[ops[i].key] == vals[i] {
      assert ops[i].key in PosKeys(ops, 0, |vals|);
    }
  }

  /** From `pos` on, the command line is the canonical text of all operands. */
  predicate SpellsAll(showInt: int -> string, vals: seq<Value>, ks: seq<(string, Given)>, req: seq<string>, pos: nat) {
    pos + |vals| <= |req| && req[pos..pos + |vals|] == ShowAll(showInt, vals) && Spells(showInt, ks, req, pos + |vals|)
  }

  /** Parsing the canonical text of an operand assignment consumes every token and returns exactly the
      assignment, leaving all other parms alone. */
  lemma RoundTrip(toInt: IntParser, showInt: int -> string, ops: seq<PosOp>, vals: seq<Value>,
                  table: KeyTable, ks: seq<(string, Given)>, req: seq<string>, pos: nat, parms: Parms)
    requires Inverse(toInt, showInt)
    requires |vals| <= |ops| && (ks != [] ==> |vals| == |ops|)
    requires forall i :: 0 <= i < |vals| ==> Typed(ops[i].isInt, vals[i])
    requires (forall i :: |vals| <= i < |ops| ==> !ops[i].required) && KeysFit(table, ks)
    requires DistinctPos(ops) && DistinctKeys(table, ks) && PosKeys(ops, 0, |vals|) !! KeyKeys(table, ks)
    requires SpellsAll(showInt, vals, ks, req, pos)
    ensures
      var r := Parsed(toInt, Some(ops), Some(table), req, parms, pos);
      r.code == 0 && r.argPos == |req| && Assigns(ops, vals, table, ks, parms, r.parms)
  {
    PositionalSpelled(toInt, showInt, ops, vals, req, pos);
    SpellsReads(toInt, showInt, table, ks, req, pos + |vals|);
    ReadingAccepted(toInt, ops, vals, table, ks, req, pos, parms);
    AppliedAssigns(ops, vals, table, ks, parms);
  }

  /** Message 5 is never reported, and without a message every token was consumed. */
  lemma {:induction false} KeywordCodes(toInt: IntParser, table: KeyTable, req: seq<string>, parms: Parms, pos: nat)
    requires pos <= |req|
    ensures var r := Keywords(toInt, table, req, parms, pos);
            r.code in {0, 3, 4, 6} && (r.code == 0 ==> r.argPos == |req|)
    decreases |req| - pos
  {
    if pos < |req| && req[pos] in table {
      var one := Keyword(toInt, table[req[pos]], req, parms, pos + 1);
      if one.code == 0 { KeywordCodes(toInt, table, req, one.parms, one.argPos); }
    }
  }
}
