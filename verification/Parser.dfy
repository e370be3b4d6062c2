/** The recursive-descent parser (query/parser.go): each production as a function of the token
    list and a position, and the parser object whose cursor moves through the list. The
    conversion of a float literal is a parameter. */
module Parser {
  import opened Wrappers
  import opened Words
  import opened Types
  import opened QueryAst
  import opened Lexer
  import opened Precedence

  type ParseFloat = Bytes -> Option<u64>

  /** The position of the offending token, or a violated rule between SELECT and GROUP BY. */
  datatype ParseError = At(pos: nat) | GroupingRule

  /** What the lexer hands over: one EOF, at the end, and no empty identifier. */
  ghost predicate TokenList(toks: seq<Token>) {
    && toks != []
    && (forall i :: 0 <= i < |toks| ==> (toks[i].kind == EOF <==> i == |toks| - 1))
    && (forall i :: 0 <= i < |toks| && toks[i].kind == Ident ==> toks[i].text != [])
  }

  lemma {:induction false} TilesAreTokens(input: Bytes, ts: seq<Token>, i: nat)
    requires Tiles(input, ts, i)
    ensures TokenList(ts)
    decreases |ts|
  {
    hide IntText, FloatText, IsKeyword, AllSpace;
    if |ts| > 1 {
      TilesAreTokens(input, ts[1..], End(ts[0]));
      assert forall k :: 1 <= k < |ts| ==> ts[k] == ts[1..][k - 1];
    }
  }

  // ---- Literals and operators ----

  function DigitsValue(t: Bytes): (n: nat)
    requires forall k :: 0 <= k < |t| ==> IsDigit(t[k])
  {
    if t == [] then 0 else assert IsDigit(t[|t| - 1]); 10 * DigitsValue(t[..|t| - 1]) + (t[|t| - 1] as int - 0x30)
  }

  /** strconv.ParseInt(text, 10, 64) on the text of an integer token. */
  function ParseInt(t: Bytes): Option<int64> {
    if !IntText(t) then None
    else
      var n := DigitsValue(t[SignLength(t)..]);
      var v: int := if SignLength(t) == 1 then -(n as int) else n;
      if InInt64(v) then Some(v) else None
  }

  function Literal(pf: ParseFloat, t: Token): Result<Value, ParseError> {
    match t.kind
    case IntLit => (match ParseInt(t.text) case None => Err(At(t.pos)) case Some(v) => Ok(Int(v)))
    case FloatLit => (match pf(t.text) case None => Err(At(t.pos)) case Some(v) => Ok(Float(v)))
    case StringLit => Ok(Str(t.text))
    case _ => Err(At(t.pos))
  }

  // The number an integer token writes: its digits from left to right.

  function Number(t: Bytes, acc: nat): nat
    requires forall k :: 0 <= k < |t| ==> IsDigit(t[k])
  {
    if t == [] then acc else assert IsDigit(t[0]); Number(t[1..], 10 * acc + (t[0] as int - '0' as int))
  }

  lemma {:induction false} NumberAppend(t: Bytes, acc: nat, d: byte)
    requires IsDigit(d) && forall k :: 0 <= k < |t| ==> IsDigit(t[k])
    ensures Number(t + [d], acc) == 10 * Number(t, acc) + (d as int - '0' as int)
    decreases |t|
  {
    if t == [] {
      assert [d][1..] == [];
    } else {
      assert (t + [d])[1..] == t[1..] + [d];
      NumberAppend(t[1..], 10 * acc + (t[0] as int - '0' as int), d);
    }
  }

  lemma {:induction false} DigitsAreNumber(t: Bytes)
    requires forall k :: 0 <= k < |t| ==> IsDigit(t[k])
    ensures DigitsValue(t) == Number(t, 0)
  {
    if t != [] {
      var n := |t| - 1;
      DigitsAreNumber(t[..n]);
      NumberAppend(t[..n], 0, t[n]);
      assert t == t[..n] + [t[n]];
    }
  }

  /** The number with its sign. */
  function Signed(t: Bytes): int
    requires IntText(t)
  {
    if t[0] == '-' as int then -(Number(t[1..], 0) as int) else Number(t, 0)
  }

  /** An integer token, leading zeros or not, reads as its number if that is an int64, and is
      refused otherwise. */
  lemma ParseIntExactly(t: Bytes)
    requires IntText(t)
    ensures ParseInt(t)
         == if -0x8000_0000_0000_0000 <= Signed(t) <= 0x7FFF_FFFF_FFFF_FFFF then Some(Signed(t)) else None
  {
    var s := SignLength(t);
    assert t[0..] == t;
    DigitsAreNumber(t[s..]);
    hide DigitsValue, Number;
  }

  lemma LeadingZero(t: Bytes)
    requires IntText(t) && IsDigit(t[0])
    ensures IntText([0x30] + t) && ParseInt([0x30] + t) == ParseInt(t)
  {
    var z := [0x30] + t;
    assert forall k :: 1 <= k < |z| ==> z[k] == t[k - 1];
    assert z[1..] == t;
    ParseIntExactly(z);
    ParseIntExactly(t);
    hide ParseInt;
  }

  /** The value a literal token stands for. */
  predicate Reads(pf: ParseFloat, t: Token, v: Value) {
    match v
    case Int(i) => t.kind == IntLit && IntText(t.text) && i == Signed(t.text)
    case Float(bits) => t.kind == FloatLit && pf(t.text) == Some(bits)
    case Str(s) => t.kind == StringLit && t.text == s
    case _ => false
  }

  lemma LiteralExactly(pf: ParseFloat, t: Token, v: Value)
    ensures Literal(pf, t) == Ok(v) <==> Reads(pf, t, v)
  {
    if t.kind == IntLit && IntText(t.text) {
      ParseIntExactly(t.text);
    }
    hide Signed, DigitsValue, IntText;
  }

  function OpOf(text: Bytes): Option<FilterOp> {
    if text == [EQUALS] then Some(OpEq)
    else if text == [BANG, EQUALS] then Some(OpNeq)
    else if text == [LESS] then Some(OpLt)
    else if text == [GREATER] then Some(OpGt)
    else if text == [LESS, EQUALS] then Some(OpLte)
    else if text == [GREATER, EQUALS] then Some(OpGte)
    else None
  }

  // ---- The productions ----

  type Step<+T> = Result<(T, nat), ParseError>

  /** advance stops at the last token. */
  function Next(toks: seq<Token>, i: nat): (j: nat)
    requires i < |toks|
    ensures j < |toks|
  {
    if i < |toks| - 1 then i + 1 else i
  }

  predicate IsWordToken(t: Token, word: Bytes) {
    t.kind == Keyword && t.text == word
  }

  function Expect(toks: seq<Token>, i: nat, k: TokKind): (r: Result<nat, ParseError>)
    requires i < |toks|
    ensures r.Ok? ==> r.value < |toks|
  {
    if toks[i].kind == k then Ok(Next(toks, i)) else Err(At(toks[i].pos))
  }

  /** col op literal */
  function PComparison(pf: ParseFloat, toks: seq<Token>, i: nat): (r: Step<Comparison>)
    requires TokenList(toks) && i < |toks|
    ensures r.Ok? ==> i + 3 == r.value.1 < |toks|
  {
    var col, opTok := toks[i], toks[Next(toks, i)];
    var lit := toks[Next(toks, Next(toks, i))];
    if col.kind != Ident then Err(At(col.pos))
    else if opTok.kind != Op then Err(At(opTok.pos))
    else
      match OpOf(opTok.text)
      case None => Err(At(opTok.pos))
      case Some(op) =>
        match Literal(pf, lit)
        case Err(e) => Err(e)
        case Ok(v) => Ok((Comparison(col.text, op, v, col.pos), i + 3))
  }

  predicate IsConnective(t: Token) {
    IsWordToken(t, AND) || IsWordToken(t, OR)
  }

  function ConnectiveOf(t: Token): Connective {
    if t.text == AND then AndOp else OrOp
  }

  /** AND comparison and OR comparison, as often as they come. */
  function PMore(pf: ParseFloat, toks: seq<Token>, i: nat): (r: Step<(seq<Comparison>, seq<Connective>)>)
    requires TokenList(toks) && i < |toks|
    ensures r.Ok? ==> |r.value.0.0| == |r.value.0.1| && i <= r.value.1 < |toks|
    decreases |toks| - i
  {
    var t := toks[i];
    if IsConnective(t) then
      match PComparison(pf, toks, Next(toks, i))
      case Err(e) => Err(e)
      case Ok((c, j)) =>
        match PMore(pf, toks, j)
        case Err(e) => Err(e)
        case Ok(((cs, ops), k)) => Ok((([c] + cs, [ConnectiveOf(t)] + ops), k))
    else if t.kind == Ident then Err(At(t.pos))
    else Ok((([], []), i))
  }

  function PWhere(pf: ParseFloat, toks: seq<Token>, i: nat): (r: Step<FilterExpr>)
    requires TokenList(toks) && i < |toks|
    ensures r.Ok? ==> i <= r.value.1 < |toks| && TwoLevel(r.value.0)
  {
    match PComparison(pf, toks, i)
    case Err(e) => Err(e)
    case Ok((first, j)) =>
      match PMore(pf, toks, j)
      case Err(e) => Err(e)
      case Ok(((cs, ops), k)) =>
        ShapeCorrect([first] + cs, ops);
        Ok((WhereTree([first] + cs, ops), k))
  }

  /** COUNT(*) or SUM(col) after a group column; i is at the aggregate's name. */
  function PAggregate(toks: seq<Token>, i: nat, q: Query): (r: Step<Query>)
    requires TokenList(toks) && i < |toks|
    ensures r.Ok? ==> r.value.1 < |toks|
  {
    match Expect(toks, Next(toks, i), LParen)
    case Err(e) => Err(e)
    case Ok(j) =>
      if toks[i].text == COUNT then
        if toks[j].kind != Star then Err(At(toks[j].pos))
        else
          match Expect(toks, Next(toks, j), RParen)
          case Err(e) => Err(e)
          case Ok(k) => Ok((q.(groupAgg := AggCountStar, projection := ProjGrouped), k))
      else
        if toks[j].kind != Ident then Err(At(toks[j].pos))
        else
          match Expect(toks, Next(toks, j), RParen)
          case Err(e) => Err(e)
          case Ok(k) =>
            Ok((q.(groupAgg := AggSumColumn, sumColumn := toks[j].text, projection := ProjGrouped), k))
  }

  predicate IsAggregate(t: Token) {
    IsWordToken(t, COUNT) || IsWordToken(t, SUM)
  }

  /** The rest of a column list, from a possible comma on. */
  function PColumns(toks: seq<Token>, i: nat, q: Query): (r: Step<Query>)
    requires TokenList(toks) && i < |toks|
    ensures r.Ok? ==> r.value.1 < |toks|
    decreases |toks| - i
  {
    if toks[i].kind != Comma then Ok((q, i))
    else
      var n := Next(toks, i);
      if IsAggregate(toks[n]) then
        if |q.columns| != 1 then Err(At(toks[n].pos))
        else
          match PAggregate(toks, n, q)
          case Err(e) => Err(e)
          case Ok((q', k)) => if toks[k].kind == Comma then Err(At(toks[k].pos)) else Ok((q', k))
      else if toks[n].kind != Ident then Err(At(toks[n].pos))
      else PColumns(toks, Next(toks, n), q.(columns := q.columns + [toks[n].text]))
  }

  function PProjection(toks: seq<Token>, i: nat, q: Query): (r: Step<Query>)
    requires TokenList(toks) && i < |toks|
    ensures r.Ok? ==> r.value.1 < |toks|
  {
    var t := toks[i];
    if t.kind == Star then Ok((q.(projection := ProjStar), Next(toks, i)))
    else if IsWordToken(t, COUNT) then
      match Expect(toks, Next(toks, i), LParen)
      case Err(e) => Err(e)
      case Ok(j) =>
        if toks[j].kind != Star then Err(At(toks[j].pos))
        else
          match Expect(toks, Next(toks, j), RParen)
          case Err(e) => Err(e)
          case Ok(k) => Ok((q.(projection := ProjCountStar), k))
    else if IsWordToken(t, SUM) then
      match Expect(toks, Next(toks, i), LParen)
      case Err(e) => Err(e)
      case Ok(j) =>
        if toks[j].kind != Ident then Err(At(toks[j].pos))
        else
          match Expect(toks, Next(toks, j), RParen)
          case Err(e) => Err(e)
          case Ok(k) => Ok((q.(projection := ProjSumColumn, sumColumn := toks[j].text), k))
    else if t.kind == Ident then
      PColumns(toks, Next(toks, i), q.(projection := ProjColumns, columns := [t.text]))
    else Err(At(t.pos))
  }

  /** WHERE and its condition, if the clause is there; FROM is rejected. */
  function PFilter(pf: ParseFloat, toks: seq<Token>, i: nat, q: Query): (r: Step<Query>)
    requires TokenList(toks) && i < |toks|
    ensures r.Ok? ==> r.value.1 < |toks|
  {
    var t := toks[i];
    if IsWordToken(t, FROM) then Err(At(t.pos))
    else if IsWordToken(t, WHERE) then
      match PWhere(pf, toks, Next(toks, i))
      case Err(e) => Err(e)
      case Ok((e, j)) => Ok((q.(filter := Some(e)), j))
    else Ok((q, i))
  }

  /** GROUP BY and its column, if the clause is there. */
  function PGroupBy(toks: seq<Token>, i: nat, q: Query): (r: Step<Query>)
    requires TokenList(toks) && i < |toks|
    ensures r.Ok? ==> r.value.1 < |toks|
  {
    if !IsWordToken(toks[i], GROUP) then Ok((q, i))
    else
      var b := Next(toks, i);
      var c := Next(toks, b);
      if !IsWordToken(toks[b], BY) then Err(At(toks[b].pos))
      else if toks[c].kind != Ident then Err(At(toks[c].pos))
      else
        var k := Next(toks, c);
        if toks[k].kind == Comma then Err(At(toks[k].pos)) else Ok((q.(groupBy := toks[c].text), k))
  }

  /** validateGrouped: the rules between projection and GROUP BY. */
  predicate GroupingOk(q: Query) {
    && (q.projection == ProjGrouped ==> q.groupBy != [] && q.columns != [] && q.groupBy == q.columns[0])
    && (q.groupBy != [] ==> q.projection == ProjGrouped)
  }

  function PQuery(pf: ParseFloat, toks: seq<Token>): (r: Step<Query>)
    requires TokenList(toks)
    ensures r.Ok? ==> r.value.1 < |toks|
  {
    if !IsWordToken(toks[0], SELECT) then Err(At(toks[0].pos))
    else
      match PProjection(toks, Next(toks, 0), EMPTY_QUERY)
      case Err(e) => Err(e)
      case Ok((q, i)) =>
        match PFilter(pf, toks, i, q)
        case Err(e) => Err(e)
        case Ok((q', j)) =>
          match PGroupBy(toks, j, q')
          case Err(e) => Err(e)
          case Ok((q'', k)) =>
            if IsWordToken(toks[k], HAVING) then Err(At(toks[k].pos))
            else if !GroupingOk(q'') then Err(GroupingRule)
            else Ok((q'', k))
  }

  /** Parse, after the lexer. */
  function ParseTokens(pf: ParseFloat, toks: seq<Token>): Result<Query, ParseError>
    requires TokenList(toks)
  {
    match PQuery(pf, toks)
    case Err(e) => Err(e)
    case Ok((q, i)) => if toks[i].kind != EOF then Err(At(toks[i].pos)) else Ok(q)
  }

  function ParseText(pf: ParseFloat, input: Bytes): Result<Query, ParseError> {
    match LexFrom(input, 0)
    case Err(pos) => Err(At(pos))
    case Ok(toks) =>
      LexTiles(input, 0);
      TilesAreTokens(input, toks, 0);
      ParseTokens(pf, toks)
  }

  // ---- What every parsed query satisfies ----

  /** The four forms of SELECT, each with exactly the fields it uses. */
  ghost predicate Shaped(q: Query) {
    && (match q.projection
        case ProjColumns =>
          q.columns != [] && q.sumColumn == [] && q.groupBy == [] && q.groupAgg == AggCountStar
        case ProjStar => q.columns == [] && q.sumColumn == [] && q.groupBy == [] && q.groupAgg == AggCountStar
        case ProjCountStar => q.columns == [] && q.sumColumn == [] && q.groupBy == [] && q.groupAgg == AggCountStar
        case ProjSumColumn => q.columns == [] && q.sumColumn != [] && q.groupBy == [] && q.groupAgg == AggCountStar
        case ProjGrouped =>
          q.groupBy != [] && q.columns == [q.groupBy] && (q.sumColumn != [] <==> q.groupAgg == AggSumColumn))
    && (q.filter.Some? ==> TwoLevel(q.filter.value))
  }

  lemma AggregateShape(toks: seq<Token>, i: nat, q: Query)
    requires TokenList(toks) && i < |toks| && PAggregate(toks, i, q).Ok?
    requires q.sumColumn == []
    ensures var q' := PAggregate(toks, i, q).value.0;
      && q' == q.(projection := ProjGrouped, groupAgg := q'.groupAgg, sumColumn := q'.sumColumn)
      && (q'.sumColumn != [] <==> q'.groupAgg == AggSumColumn)
  {
  }

  lemma {:induction false} ColumnsShape(toks: seq<Token>, i: nat, q: Query)
    requires TokenList(toks) && i < |toks| && PColumns(toks, i, q).Ok?
    requires q.projection == ProjColumns && q.columns != []
    requires q.sumColumn == [] && q.groupBy == [] && q.groupAgg == AggCountStar && q.filter == None
    ensures var q' := PColumns(toks, i, q).value.0;
      && q'.groupBy == [] && q'.filter == None
      && if q'.projection == ProjGrouped then
           |q'.columns| == 1 && (q'.sumColumn != [] <==> q'.groupAgg == AggSumColumn)
         else
           q'.projection == ProjColumns && q'.columns != [] && q'.sumColumn == [] && q'.groupAgg == AggCountStar
    decreases |toks| - i
  {
    hide PAggregate;
    if toks[i].kind == Comma {
      var n := Next(toks, i);
      if IsAggregate(toks[n]) {
        AggregateShape(toks, n, q);
      } else {
        ColumnsShape(toks, Next(toks, n), q.(columns := q.columns + [toks[n].text]));
      }
    }
  }

  lemma ParsedIsShaped(pf: ParseFloat, toks: seq<Token>)
    requires TokenList(toks) && ParseTokens(pf, toks).Ok?
    ensures Shaped(ParseTokens(pf, toks).value)
  {
    hide PColumns, PWhere, TwoLevel;
    var t := toks[Next(toks, 0)];
    if t.kind == Ident {
      var q := EMPTY_QUERY.(projection := ProjColumns, columns := [t.text]);
      ColumnsShape(toks, Next(toks, Next(toks, 0)), q);
    }
  }

  /** Every query Parse returns has one of the four forms; its filter is a two-level tree with
      one branch a node; GROUP BY is there iff the projection is grouped, on its one column. */
  lemma ParseGivesShaped(pf: ParseFloat, input: Bytes)
    requires ParseText(pf, input).Ok?
    ensures Shaped(ParseText(pf, input).value)
  {
    LexTiles(input, 0);
    TilesAreTokens(input, LexFrom(input, 0).value, 0);
    ParsedIsShaped(pf, LexFrom(input, 0).value);
  }

  // ---- The parser object ----

  class TokenParser {
    const toks: seq<Token>
    var i: nat

    ghost predicate Valid()
      reads this
    {
      TokenList(toks) && i < |toks|
    }

    constructor (toks: seq<Token>)
      requires TokenList(toks)
      ensures Valid() && this.toks == toks && i == 0
    {
      this.toks, this.i := toks, 0;
    }

    function Peek(): Token
      requires Valid()
      reads this
    {
      toks[i]
    }

    method Advance() returns (t: Token)
      requires Valid()
      modifies this
      ensures Valid() && t == toks[old(i)] && i == Next(toks, old(i))
    {
      t := toks[i];
      if i < |toks| - 1 {
        i := i + 1;
      }
    }

    /** A step left the cursor and the result where a production says. */
    ghost predicate Took<T(!new)>(step: Step<T>, r: Result<T, ParseError>)
      reads this
    {
      match step
      case Err(e) => r == Err(e)
      case Ok((x, j)) => r == Ok(x) && i == j
    }

    method ExpectKind(k: TokKind) returns (err: Option<ParseError>)
      requires Valid()
      modifies this
      ensures Valid()
      ensures match Expect(toks, old(i), k)
              case Err(e) => err == Some(e)
              case Ok(j) => err == None && i == j
    {
      var t := Advance();
      if t.kind != k {
        return Some(At(t.pos));
      }
      return None;
    }

    method ParseComparison(pf: ParseFloat) returns (r: Result<Comparison, ParseError>)
      requires Valid()
      modifies this
      ensures Valid() && Took(PComparison(pf, toks, old(i)), r)
    {
      hide Literal, OpOf;
      var col := Advance();
      if col.kind == LParen {
        return Err(At(col.pos));
      }
      if col.kind != Ident {
        return Err(At(col.pos));
      }
      var opTok := Advance();
      if opTok.kind != Op {
        return Err(At(opTok.pos));
      }
      var op := OpOf(opTok.text);
      if op == None {
        return Err(At(opTok.pos));
      }
      var lit := Advance();
      var val := Literal(pf, lit);
      if val.Err? {
        return Err(val.error);
      }
      LiteralIsNotEOF(pf, lit);
      return Ok(Comparison(col.text, op.value, val.value, col.pos));
    }

    /** parseWhere: the flat list first, then the two passes that build the tree. */
    method ParseWhere(pf: ParseFloat) returns (r: Result<FilterExpr, ParseError>)
      requires Valid()
      modifies this
      ensures Valid() && Took(PWhere(pf, toks, old(i)), r)
    {
      hide PComparison, WhereTree, TwoLevel, TokenList;
      var first := ParseComparison(pf);
      if first.Err? {
        return Err(first.error);
      }
      var comps, ops := [first.value], [];
      assert comps[1..] == [];
      ghost var start := i;
      ghost var whole := PMore(pf, toks, start);
      if whole.Ok? { ConcatNil(whole.value.0.0); ConcatNil(whole.value.0.1); }
      while true
        invariant Valid() && i >= start
        invariant |comps| == |ops| + 1 && comps[0] == first.value
        invariant match PMore(pf, toks, i)
                  case Err(e) => whole == Err(e)
                  case Ok(((cs, os), k)) => whole == Ok(((comps[1..] + cs, ops + os), k))
        decreases |toks| - i
      {
        var t := Peek();
        ghost var before, at := comps, i;
        if t.kind == EOF {
          break;
        }
        if IsConnective(t) {
          var word := Advance();
          var next := ParseComparison(pf);
          if next.Err? {
            return Err(next.error);
          }
          ComparisonAdvances(pf, toks, Next(toks, at));
          if PMore(pf, toks, i).Ok? {
            ConcatAssoc(comps[1..], [next.value], PMore(pf, toks, i).value.0.0);
            ConcatAssoc(ops, [ConnectiveOf(t)], PMore(pf, toks, i).value.0.1);
          }
          ops := ops + [ConnectiveOf(t)];
          comps := comps + [next.value];
          assert comps[1..] == before[1..] + [next.value];
          continue;
        }
        if t.kind == Ident {
          return Err(At(t.pos));
        }
        break;
      }
      ConcatNil(comps[1..]);
      ConcatNil(ops);
      assert comps == [first.value] + comps[1..];
      var groups := GroupComparisons(comps, ops);
      var e := LowerGroups(groups);
      WhereTreeIs(comps, ops);
      return Ok(e);
    }

    method ParseGroupedAggregate(q: Query) returns (r: Result<Query, ParseError>)
      requires Valid() && IsAggregate(toks[i])
      modifies this
      ensures Valid() && Took(PAggregate(toks, old(i), q), r)
    {
      var q' := q;
      var agg := Advance();
      var err := ExpectKind(LParen);
      if err.Some? {
        return Err(err.value);
      }
      var next := Advance();
      if agg.text == COUNT {
        if next.kind != Star {
          return Err(At(next.pos));
        }
        q' := q'.(groupAgg := AggCountStar);
      } else {
        if next.kind != Ident {
          return Err(At(next.pos));
        }
        q' := q'.(groupAgg := AggSumColumn, sumColumn := next.text);
      }
      err := ExpectKind(RParen);
      if err.Some? {
        return Err(err.value);
      }
      return Ok(q'.(projection := ProjGrouped));
    }

    method ParseColumns(q: Query) returns (r: Result<Query, ParseError>)
      requires Valid()
      modifies this
      ensures Valid() && Took(PColumns(toks, old(i), q), r)
    {
      hide PAggregate;
      var q' := q;
      ghost var whole := PColumns(toks, i, q);
      while Peek().kind == Comma
        invariant Valid() && PColumns(toks, i, q') == whole
        decreases |toks| - i
      {
        var comma := Advance();
        var n := Peek();
        if IsAggregate(n) {
          if |q'.columns| != 1 {
            return Err(At(n.pos));
          }
          var grouped := ParseGroupedAggregate(q');
          if grouped.Err? {
            return grouped;
          }
          if Peek().kind == Comma {
            return Err(At(Peek().pos));
          }
          return grouped;
        }
        n := Advance();
        if n.kind != Ident {
          return Err(At(n.pos));
        }
        q' := q'.(columns := q'.columns + [n.text]);
      }
      return Ok(q');
    }

    method ParseProjection(q: Query) returns (r: Result<Query, ParseError>)
      requires Valid()
      modifies this
      ensures Valid() && Took(PProjection(toks, old(i), q), r)
    {
      hide PColumns;
      var t := Peek();
      if t.kind == Star {
        t := Advance();
        return Ok(q.(projection := ProjStar));
      }
      if IsWordToken(t, COUNT) || IsWordToken(t, SUM) {
        t := Advance();
        var err := ExpectKind(LParen);
        if err.Some? {
          return Err(err.value);
        }
        var next := Advance();
        if next.kind != (if t.text == COUNT then Star else Ident) {
          return Err(At(next.pos));
        }
        err := ExpectKind(RParen);
        if err.Some? {
          return Err(err.value);
        }
        if t.text == COUNT {
          return Ok(q.(projection := ProjCountStar));
        }
        return Ok(q.(projection := ProjSumColumn, sumColumn := next.text));
      }
      if t.kind == Ident {
        t := Advance();
        r := ParseColumns(q.(projection := ProjColumns, columns := [t.text]));
        return;
      }
      return Err(At(t.pos));
    }

    method ParseGroupBy(q: Query) returns (r: Result<Query, ParseError>)
      requires Valid() && IsWordToken(toks[i], GROUP)
      modifies this
      ensures Valid() && Took(PGroupBy(toks, old(i), q), r)
    {
      var groupTok := Advance();
      var byTok := Advance();
      if !IsWordToken(byTok, BY) {
        return Err(At(byTok.pos));
      }
      var col := Advance();
      if col.kind != Ident {
        return Err(At(col.pos));
      }
      if Peek().kind == Comma {
        return Err(At(Peek().pos));
      }
      return Ok(q.(groupBy := col.text));
    }

    method ParseQuery(pf: ParseFloat) returns (r: Result<Query, ParseError>)
      requires Valid() && i == 0
      modifies this
      ensures Valid() && Took(PQuery(pf, toks), r)
    {
      hide PProjection, PWhere, TokenList;
      var t := Advance();
      if !IsWordToken(t, SELECT) {
        return Err(At(t.pos));
      }
      var q := ParseProjection(EMPTY_QUERY);
      if q.Err? {
        return q;
      }
      t := Peek();
      if IsWordToken(t, FROM) {
        return Err(At(t.pos));
      }
      if IsWordToken(t, WHERE) {
        t := Advance();
        var e := ParseWhere(pf);
        if e.Err? {
          return Err(e.error);
        }
        q := Ok(q.value.(filter := Some(e.value)));
      }
      ghost var afterFilter := i;
      t := Peek();
      if IsWordToken(t, GROUP) {
        q := ParseGroupBy(q.value);
        if q.Err? {
          return q;
        }
      }
      if IsWordToken(Peek(), HAVING) {
        return Err(At(Peek().pos));
      }
      if !GroupingOk(q.value) {
        return Err(GroupingRule);
      }
      return q;
    }
  }

  lemma LiteralIsNotEOF(pf: ParseFloat, t: Token)
    ensures Literal(pf, t).Ok? ==> t.kind != EOF
  {
  }

  lemma ComparisonAdvances(pf: ParseFloat, toks: seq<Token>, i: nat)
    requires TokenList(toks) && i < |toks|
    ensures PComparison(pf, toks, i).Ok? ==> PComparison(pf, toks, i).value.1 > i
  {
  }

  lemma WhereTreeIs(comps: seq<Comparison>, ops: seq<Connective>)
    requires |comps| == |ops| + 1
    ensures WhereTree(comps, ops) == Lower(Groups(comps, ops))
  {
  }

  method Parse(pf: ParseFloat, input: Bytes) returns (r: Result<Query, ParseError>)
    ensures r == ParseText(pf, input)
  {
    hide PQuery, LexFrom, TokenList, Tiles;
    var toks := Lex(input);
    if toks.Err? {
      return Err(At(toks.error));
    }
    LexTiles(input, 0);
    TilesAreTokens(input, toks.value, 0);
    var p := new TokenParser(toks.value);
    var q := p.ParseQuery(pf);
    if q.Err? {
      return q;
    }
    if p.Peek().kind != EOF {
      return Err(At(p.Peek().pos));
    }
    return q;
  }
}
