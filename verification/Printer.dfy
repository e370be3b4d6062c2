/** A printer for queries, and the proof that Parse inverts it and that it prints everything
    Parse can return. The printer is the model's own; the repository has none. */
module Printer {
  import opened Wrappers
  import opened Words
  import opened Types
  import opened QueryAst
  import opened Lexer
  import opened Precedence
  import opened Parser
  import opened Grammar

  // ---- Decimal integers ----

  function Digits(n: nat): (t: Bytes)
    ensures t != [] && forall k :: 0 <= k < |t| ==> IsDigit(t[k])
  {
    if n < 10 then [0x30 + n] else Digits(n / 10) + [0x30 + n % 10]
  }

  function Decimal(i: int): (t: Bytes)
    ensures IntText(t)
  {
    if i < 0 then [MINUS] + Digits(-i) else
      assert Digits(i)[0] != MINUS by { assert IsDigit(Digits(i)[0]); }
      Digits(i)
  }

  lemma {:induction false} DigitsRoundTrip(n: nat)
    ensures DigitsValue(Digits(n)) == n
  {
    var t := Digits(n);
    if n < 10 {
      assert t[..0] == [];
      assert DigitsValue(t) == 10 * DigitsValue(t[..0]) + n;
    } else {
      DigitsRoundTrip(n / 10);
      assert t[..|t| - 1] == Digits(n / 10);
    }
  }

  /** Any int64, the smallest included, is read back from its decimal form. */
  lemma DecimalRoundTrip(i: int64)
    ensures ParseInt(Decimal(i)) == Some(i)
  {
    var t := Decimal(i);
    hide Digits, DigitsValue;
    if i < 0 {
      var n: nat := -(i as int);
      DigitsRoundTrip(n);
      assert SignLength(t) == 1 && t[1..] == Digits(n);
    } else {
      DigitsRoundTrip(i);
      assert IsDigit(t[0]);
      assert SignLength(t) == 0 && t[0..] == Digits(i);
    }
  }

  // ---- What a text can say ----

  ghost predicate IsName(n: Bytes) {
    IsWord(n) && !IsKeyword(Upper(n))
  }

  ghost predicate FloatSpelledBy(pf: ParseFloat, bits: u64, text: Bytes) {
    FloatText(text) && pf(text) == Some(bits)
  }

  /** Any int64, any float some literal stands for, any string without a quote. */
  ghost predicate WritableLiteral(pf: ParseFloat, v: Value) {
    match v
    case Int(_) => true
    case Float(bits) => exists text :: FloatSpelledBy(pf, bits, text)
    case Str(s) => QUOTE !in s
    case _ => false
  }

  ghost predicate WritableComparison(pf: ParseFloat, c: Comparison) {
    IsName(c.column) && WritableLiteral(pf, c.value)
  }

  ghost predicate AllComparisons(pf: ParseFloat, cs: seq<Comparison>) {
    forall i :: 0 <= i < |cs| ==> WritableComparison(pf, cs[i])
  }

  ghost predicate AllNames(ns: seq<Bytes>) {
    forall i :: 0 <= i < |ns| ==> IsName(ns[i])
  }

  /** The queries of the four forms whose names are words but no keywords and whose literals
      can be written. */
  ghost predicate Expressible(pf: ParseFloat, q: Query) {
    && Shaped(q) && AllNames(q.columns) && (q.sumColumn != [] ==> IsName(q.sumColumn))
    && (q.filter.Some? ==> AllComparisons(pf, Conditions(q.filter.value).0))
  }

  // ---- Printing ----

  /** A token without its place. */
  datatype Lexeme = Lexeme(kind: TokKind, text: Bytes)

  /** Some spelling that ParseFloat reads as the float. */
  ghost function FloatSpelling(pf: ParseFloat, bits: u64): (text: Bytes)
    ensures WritableLiteral(pf, Float(bits)) ==> FloatSpelledBy(pf, bits, text)
  {
    if WritableLiteral(pf, Float(bits)) then
      var text :| FloatSpelledBy(pf, bits, text);
      text
    else []
  }

  ghost function LexemeOf(pf: ParseFloat, p: Pattern): Lexeme {
    match p
    case Exact(kind, text) => Lexeme(kind, text)
    case ColumnAt(name, _) => Lexeme(Ident, name)
    case Lit(Int(i)) => Lexeme(IntLit, Decimal(i))
    case Lit(Float(bits)) => Lexeme(FloatLit, FloatSpelling(pf, bits))
    case Lit(Str(s)) => Lexeme(StringLit, s)
    case Lit(_) => Lexeme(EOF, [])
  }

  ghost function Lexemes(pf: ParseFloat, ps: seq<Pattern>): (ls: seq<Lexeme>)
    ensures |ls| == |ps| && forall i :: 0 <= i < |ps| ==> ls[i] == LexemeOf(pf, ps[i])
  {
    seq(|ps|, i requires 0 <= i < |ps| => LexemeOf(pf, ps[i]))
  }

  function RenderLexeme(l: Lexeme): Bytes {
    if l.kind == StringLit then [QUOTE] + l.text + [QUOTE] else l.text
  }

  /** Every lexeme followed by one space. */
  function Render(ls: seq<Lexeme>): Bytes {
    if ls == [] then [] else RenderLexeme(ls[0]) + [SPACE] + Render(ls[1..])
  }

  ghost function Print(pf: ParseFloat, q: Query): Bytes
    requires Shaped(q)
  {
    Render(Lexemes(pf, Sentence(q)))
  }

  // ---- The lexer takes a rendering apart ----

  ghost predicate PrintableLexeme(l: Lexeme) {
    match l.kind
    case EOF => false
    case Ident => IsName(l.text)
    case Keyword => IsKeyword(l.text)
    case IntLit => IntText(l.text)
    case FloatLit => FloatText(l.text)
    case StringLit => QUOTE !in l.text
    case Op => OpOf(l.text).Some?
    case Comma => l.text == [COMMA]
    case LParen => l.text == [LPAREN]
    case RParen => l.text == [RPAREN]
    case Star => l.text == [STAR]
  }

  ghost predicate AllPrintable(ls: seq<Lexeme>) {
    forall i :: 0 <= i < |ls| ==> PrintableLexeme(ls[i])
  }

  /** The tokens of a rendering that starts at byte at. */
  function Place(ls: seq<Lexeme>, at: nat): (ts: seq<Token>)
    ensures |ts| == |ls| + 1
    ensures forall i :: 0 <= i < |ls| ==> ts[i].kind == ls[i].kind && ts[i].text == ls[i].text
  {
    if ls == [] then [Token(EOF, [], at)]
    else
      var rest := Place(ls[1..], at + |RenderLexeme(ls[0])| + 1);
      assert forall i :: 1 <= i < |ls| ==> ls[i] == ls[1..][i - 1];
      [Token(ls[0].kind, ls[0].text, at)] + rest
  }

  lemma KeywordsAreWords(w: Bytes)
    requires IsKeyword(w)
    ensures IsWord(w) && Upper(w) == w
  {
  }

  lemma LexemeStands(input: Bytes, l: Lexeme, at: nat)
    requires PrintableLexeme(l)
    requires var r := RenderLexeme(l); at + |r| < |input| && input[at..at + |r|] == r && input[at + |r|] == SPACE
    ensures var t := Token(l.kind, l.text, at); End(t) == at + |RenderLexeme(l)| && StandsAt(input, t)
  {
    if l.kind == Keyword { KeywordsAreWords(l.text); }
    hide IsWord, IsKeyword, IntText, FloatText, Upper;
  }

  lemma {:induction false} RenderingTiles(input: Bytes, pre: Bytes, ls: seq<Lexeme>, i: nat)
    requires AllPrintable(ls) && input == pre + Render(ls) && AllSpace(input, i, |pre|)
    ensures Tiles(input, Place(ls, |pre|), i)
    decreases |ls|
  {
    hide PrintableLexeme, StandsAt, RenderLexeme;
    if ls == [] {
      ConcatNil(pre);
    } else {
      hide Tiles;
      var r, rest := RenderLexeme(ls[0]), Render(ls[1..]);
      var pre' := pre + r + [SPACE];
      RenderingSplit(input, pre, r, rest);
      LexemeStands(input, ls[0], |pre|);
      RenderingTiles(input, pre', ls[1..], |pre| + |r|);
      hide AllSpace, Render, AllPrintable;
      TilesCons(input, Token(ls[0].kind, ls[0].text, |pre|), Place(ls[1..], |pre'|), i);
    }
  }

  lemma TilesCons(input: Bytes, t: Token, ts: seq<Token>, i: nat)
    requires AllSpace(input, i, t.pos) && StandsAt(input, t) && Tiles(input, ts, End(t))
    ensures Tiles(input, [t] + ts, i)
  {
    hide StandsAt, AllSpace;
    assert ([t] + ts)[1..] == ts;
  }

  lemma RenderingSplit(input: Bytes, pre: Bytes, r: Bytes, rest: Bytes)
    requires input == pre + (r + [SPACE] + rest)
    ensures input == (pre + r + [SPACE]) + rest && |pre| + |r| < |input|
    ensures input[|pre|..|pre| + |r|] == r && input[|pre| + |r|] == SPACE
  {
  }

  lemma LexOfRendering(ls: seq<Lexeme>)
    requires AllPrintable(ls)
    ensures Tiles(Render(ls), Place(ls, 0), 0)
  {
    hide Tiles, Place;
    ConcatNil(Render(ls));
    RenderingTiles(Render(ls), [], ls, 0);
  }

  // ---- Forgetting positions ----

  function Unplaced(c: Comparison): Comparison {
    c.(pos := 0)
  }

  function UnplaceAll(cs: seq<Comparison>): (r: seq<Comparison>)
    ensures |r| == |cs| && forall i :: 0 <= i < |cs| ==> r[i] == Unplaced(cs[i])
  {
    seq(|cs|, i requires 0 <= i < |cs| => Unplaced(cs[i]))
  }

  function UnplaceGroups(gs: seq<seq<Comparison>>): (r: seq<seq<Comparison>>)
    ensures |r| == |gs| && forall i :: 0 <= i < |gs| ==> r[i] == UnplaceAll(gs[i])
  {
    seq(|gs|, i requires 0 <= i < |gs| => UnplaceAll(gs[i]))
  }

  /** The tree with every position zero. */
  function Unplace(e: FilterExpr): FilterExpr {
    FilterExpr(
      if e.comparison.Some? then Some(Unplaced(e.comparison.value)) else None,
      if e.and.Nodes? then Nodes(seq(|e.and.list|, i requires 0 <= i < |e.and.list| => Unplace(e.and.list[i]))) else NilNodes,
      if e.or.Nodes? then Nodes(seq(|e.or.list|, i requires 0 <= i < |e.or.list| => Unplace(e.or.list[i]))) else NilNodes)
  }

  function UnplaceQuery(q: Query): Query {
    if q.filter.Some? then q.(filter := Some(Unplace(q.filter.value))) else q
  }

  lemma {:induction false} GroupsUnplaced(cs: seq<Comparison>, ops: seq<Connective>)
    requires |cs| == |ops| + 1
    ensures Groups(UnplaceAll(cs), ops) == UnplaceGroups(Groups(cs, ops))
    decreases |ops|
  {
    if ops != [] {
      assert UnplaceAll(cs)[1..] == UnplaceAll(cs[1..]);
      GroupsUnplaced(cs[1..], ops[1..]);
      var rest := Groups(cs[1..], ops[1..]);
      UnplacePrepend(cs[0], rest);
      UnplaceNewGroup(cs[0], rest);
      hide UnplaceGroups, Prepend;
    }
  }

  lemma UnplacePrepend(c: Comparison, gs: seq<seq<Comparison>>)
    requires gs != []
    ensures UnplaceGroups(Prepend([c], gs)) == Prepend([Unplaced(c)], UnplaceGroups(gs))
  {
    assert UnplaceAll([c] + gs[0]) == [Unplaced(c)] + UnplaceAll(gs[0]);
  }

  lemma UnplaceNewGroup(c: Comparison, gs: seq<seq<Comparison>>)
    ensures UnplaceGroups([[c]] + gs) == [[Unplaced(c)]] + UnplaceGroups(gs)
  {
    assert UnplaceAll([c]) == [Unplaced(c)];
  }

  lemma GroupNodeUnplaced(g: seq<Comparison>)
    ensures Unplace(GroupNode(g)) == GroupNode(UnplaceAll(g))
  {
    if |g| != 1 {
      var e := GroupNode(g);
      assert forall i :: 0 <= i < |g| ==> Unplace(Leaf(g[i])) == Leaf(Unplaced(g[i]));
      assert Unplace(e).and.list == Leaves(UnplaceAll(g));
    }
  }

  lemma LowerUnplaced(gs: seq<seq<Comparison>>)
    ensures Unplace(Lower(gs)) == Lower(UnplaceGroups(gs))
  {
    if |gs| == 1 {
      GroupNodeUnplaced(gs[0]);
    } else {
      forall i | 0 <= i < |gs| ensures Unplace(GroupNode(gs[i])) == GroupNode(UnplaceAll(gs[i])) {
        GroupNodeUnplaced(gs[i]);
      }
      assert Unplace(Lower(gs)).or.list == GroupNodes(UnplaceGroups(gs));
    }
  }

  lemma WhereTreeUnplaced(cs: seq<Comparison>, ops: seq<Connective>)
    requires |cs| == |ops| + 1
    ensures Unplace(WhereTree(cs, ops)) == WhereTree(UnplaceAll(cs), ops)
  {
    GroupsUnplaced(cs, ops);
    LowerUnplaced(Groups(cs, ops));
  }

  // ---- Giving comparisons the positions of their tokens ----

  function Placed(ps: seq<Pattern>, toks: seq<Token>): (r: seq<Pattern>)
    requires |ps| <= |toks|
    ensures |r| == |ps|
  {
    seq(|ps|, k requires 0 <= k < |ps| => if ps[k].ColumnAt? then ps[k].(pos := toks[k].pos) else ps[k])
  }

  /** Comparison k starts four tokens behind comparison k - 1. */
  function Moved(cs: seq<Comparison>, toks: seq<Token>): (r: seq<Comparison>)
    requires 4 * |cs| <= |toks| + 1
    ensures |r| == |cs| && UnplaceAll(r) == UnplaceAll(cs)
  {
    seq(|cs|, k requires 0 <= k < |cs| => cs[k].(pos := toks[4 * k].pos))
  }

  lemma PlacedConcat(a: seq<Pattern>, b: seq<Pattern>, toks: seq<Token>)
    requires |a| + |b| <= |toks|
    ensures Placed(a + b, toks) == Placed(a, toks) + Placed(b, toks[|a|..])
  {
  }

  ghost predicate NoColumnAt(ps: seq<Pattern>) {
    forall k :: 0 <= k < |ps| ==> !ps[k].ColumnAt?
  }

  lemma PlacedFixed(ps: seq<Pattern>, toks: seq<Token>)
    requires NoColumnAt(ps) && |ps| <= |toks|
    ensures Placed(ps, toks) == ps
  {
  }

  lemma {:induction false} NamesAreFixed(ns: seq<Bytes>)
    ensures NoColumnAt(NamesSentence(ns))
  {
    if ns != [] {
      NamesAreFixed(ns[1..]);
    }
  }

  lemma ProjectionIsFixed(q: Query)
    requires Shaped(q)
    ensures NoColumnAt(ProjectionSentence(q))
  {
    hide TwoLevel;
    if q.projection == ProjColumns {
      NamesAreFixed(q.columns[1..]);
      hide NamesSentence;
    }
  }

  lemma ComparisonPlaced(c: Comparison, toks: seq<Token>)
    requires |toks| >= 3
    ensures Placed(ComparisonSentence(c), toks) == ComparisonSentence(c.(pos := toks[0].pos))
  {
    hide OpText;
  }

  lemma {:induction false} MorePlaced(cs: seq<Comparison>, ops: seq<Connective>, toks: seq<Token>)
    requires |cs| == |ops| && 4 * |cs| <= |toks|
    ensures |toks| > 0 ==> Placed(MoreSentence(cs, ops), toks) == MoreSentence(Moved(cs, toks[1..]), ops)
    decreases |cs|
  {
    hide UnplaceAll, Unplaced, OpText;
    if cs != [] {
      var word := [Word(if ops[0] == AndOp then AND else OR)];
      var first, rest := ComparisonSentence(cs[0]), MoreSentence(cs[1..], ops[1..]);
      var moved := Moved(cs, toks[1..]);
      assert moved[0] == cs[0].(pos := toks[1].pos);
      ComparisonPlaced(cs[0], toks[1..]);
      PlacedFixed(word, toks);
      hide Placed, ComparisonSentence;
      if |cs| > 1 {
        MovedTail(cs, toks[1..]);
        assert toks[1..][4..] == toks[4..][1..];
      }
      MorePlaced(cs[1..], ops[1..], toks[4..]);
      hide Moved;
      PlacedConcat(word, first, toks);
      PlacedConcat(word + first, rest, toks);
    }
  }

  lemma MovedTail(cs: seq<Comparison>, toks: seq<Token>)
    requires |cs| > 1 && 4 * |cs| <= |toks| + 1
    ensures Moved(cs, toks)[1..] == Moved(cs[1..], toks[4..])
  {
  }

  /** The condition with every comparison at the place of its first token. */
  function MovedTree(e: FilterExpr, toks: seq<Token>): FilterExpr
    requires TwoLevel(e) && |ConditionSentence(e)| <= |toks|
  {
    WhereTree(Moved(Conditions(e).0, toks), Conditions(e).1)
  }

  lemma ConditionPlaced(e: FilterExpr, toks: seq<Token>)
    requires TwoLevel(e) && |ConditionSentence(e)| < |toks|
    ensures TwoLevel(MovedTree(e, toks)) && Unplace(MovedTree(e, toks)) == Unplace(e)
    ensures Placed(ConditionSentence(e), toks) == ConditionSentence(MovedTree(e, toks))
  {
    var (cs, ops) := Conditions(e);
    var moved := Moved(cs, toks);
    hide TwoLevel, Conditions, WhereTree, Unplace;
    ConditionsRecovered(moved, ops);
    TreeRecovered(e);
    WhereTreeUnplaced(moved, ops);
    WhereTreeUnplaced(cs, ops);
    ComparisonPlaced(cs[0], toks);
    MorePlaced(cs[1..], ops, toks[3..]);
    if |cs| > 1 {
      MovedTail(cs, toks);
      assert toks[3..][1..] == toks[4..];
    }
    hide Placed, Moved, ComparisonSentence, MoreSentence;
    PlacedConcat(ComparisonSentence(cs[0]), MoreSentence(cs[1..], ops), toks);
  }

  lemma FilterPlaced(q: Query, toks: seq<Token>) returns (q': Query)
    requires Shaped(q) && |FilterSentence(q)| < |toks|
    ensures q' == q.(filter := q'.filter) && Shaped(q') && UnplaceQuery(q') == UnplaceQuery(q)
    ensures Placed(FilterSentence(q), toks) == FilterSentence(q')
  {
    hide TwoLevel, ConditionSentence, MovedTree, Unplace;
    if q.filter.Some? {
      var e, rest := q.filter.value, toks[1..];
      ConditionPlaced(e, rest);
      q' := q.(filter := Some(MovedTree(e, rest)));
      assert Placed([Word(WHERE)], toks) == [Word(WHERE)];
      hide Placed;
      PlacedConcat([Word(WHERE)], ConditionSentence(e), toks);
    } else {
      q' := q;
    }
  }

  lemma SentencePlaced(q: Query, toks: seq<Token>) returns (q': Query)
    requires Shaped(q) && |Sentence(q)| < |toks|
    ensures Shaped(q') && UnplaceQuery(q') == UnplaceQuery(q) && Placed(Sentence(q), toks) == Sentence(q')
  {
    var s, p, f, g := [Word(SELECT)], ProjectionSentence(q), FilterSentence(q), GroupSentence(q.groupBy);
    ProjectionIsFixed(q);
    assert NoColumnAt(g);
    hide TwoLevel, Placed, UnplaceQuery;
    q' := FilterPlaced(q, toks[1 + |p|..]);
    assert ProjectionSentence(q') == p;
    hide ProjectionSentence, FilterSentence, GroupSentence, Shaped;
    PlacedConcat(s + p + f, g, toks);
    PlacedConcat(s + p, f, toks);
    PlacedConcat(s, p, toks);
    PlacedFixed(s, toks);
    PlacedFixed(p, toks[1..]);
    PlacedFixed(g, toks[|s + p + f|..]);
  }

  // ---- Writable sentences ----

  ghost predicate Writable(pf: ParseFloat, p: Pattern) {
    match p
    case Exact(kind, text) => PrintableLexeme(Lexeme(kind, text))
    case ColumnAt(name, _) => IsName(name)
    case Lit(v) => WritableLiteral(pf, v)
  }

  ghost predicate AllWritable(pf: ParseFloat, ps: seq<Pattern>) {
    forall k :: 0 <= k < |ps| ==> Writable(pf, ps[k])
  }

  /** The lexeme printed for a pattern lexes, and its token fits the pattern. */
  lemma WritableFits(pf: ParseFloat, p: Pattern, t: Token)
    requires Writable(pf, p) && t.kind == LexemeOf(pf, p).kind && t.text == LexemeOf(pf, p).text
    ensures PrintableLexeme(LexemeOf(pf, p))
    ensures FitsOne(pf, t, if p.ColumnAt? then p.(pos := t.pos) else p)
  {
    hide IsName, FloatText, IsKeyword, OpOf, Decimal, IntText, ParseInt;
    if p.Lit? && p.value.Int? {
      DecimalRoundTrip(p.value.i);
      ParseIntExactly(Decimal(p.value.i));
    }
    hide Signed;
  }

  lemma PrintedFits(pf: ParseFloat, ps: seq<Pattern>)
    requires AllWritable(pf, ps)
    ensures AllPrintable(Lexemes(pf, ps))
    ensures var toks := Place(Lexemes(pf, ps), 0); Fits(pf, toks, 0, Placed(ps, toks))
  {
    hide Writable, PrintableLexeme, FitsOne, LexemeOf;
    var ls := Lexemes(pf, ps);
    var toks := Place(ls, 0);
    forall k | 0 <= k < |ps|
      ensures PrintableLexeme(ls[k]) && FitsOne(pf, toks[0 + k], Placed(ps, toks)[k])
    {
      WritableFits(pf, ps[k], toks[k]);
    }
  }

  lemma WritableConcat(pf: ParseFloat, a: seq<Pattern>, b: seq<Pattern>)
    ensures AllWritable(pf, a + b) <==> AllWritable(pf, a) && AllWritable(pf, b)
  {
    hide Writable;
    var c := a + b;
    if AllWritable(pf, c) {
      forall k | 0 <= k < |a| ensures Writable(pf, a[k]) { assert c[k] == a[k]; }
      forall k | 0 <= k < |b| ensures Writable(pf, b[k]) { assert c[|a| + k] == b[k]; }
    }
  }

  lemma {:induction false} NamesWritable(pf: ParseFloat, ns: seq<Bytes>)
    ensures AllWritable(pf, NamesSentence(ns)) <==> AllNames(ns)
  {
    hide IsName;
    if ns != [] {
      NamesWritable(pf, ns[1..]);
      var pair := [SEPARATOR, Name(ns[0])];
      assert AllWritable(pf, pair) <==> IsName(ns[0]) by { assert pair[1] == Name(ns[0]); }
      assert AllNames(ns) <==> IsName(ns[0]) && AllNames(ns[1..]) by { assert ns == [ns[0]] + ns[1..]; }
      hide AllWritable, AllNames;
      WritableConcat(pf, pair, NamesSentence(ns[1..]));
    }
  }

  lemma AggregateWritable(pf: ParseFloat, count: bool, col: Bytes)
    ensures AllWritable(pf, AggregateSentence(count, col)) <==> count || IsName(col)
  {
    hide IsName;
    var ps := AggregateSentence(count, col);
    if !count { assert ps[2] == Name(col); }
  }

  lemma ProjectionWritable(pf: ParseFloat, q: Query)
    requires Shaped(q)
    ensures AllWritable(pf, ProjectionSentence(q))
       <==> AllNames(q.columns) && (q.sumColumn != [] ==> IsName(q.sumColumn))
  {
    hide IsName, TwoLevel, AggregateSentence, NamesSentence;
    AggregateWritable(pf, false, q.sumColumn);
    AggregateWritable(pf, true, q.sumColumn);
    if q.projection == ProjColumns {
      ColumnsWritable(pf, q.columns);
    } else if q.projection == ProjGrouped {
      var head := [Name(q.columns[0]), SEPARATOR];
      assert AllWritable(pf, head) <==> IsName(q.columns[0]) by { assert head[0] == Name(q.columns[0]); }
      WritableConcat(pf, head, AggregateSentence(q.groupAgg == AggCountStar, q.sumColumn));
      assert AllNames(q.columns) <==> IsName(q.columns[0]);
      hide AllWritable, AllNames;
    }
  }

  lemma ColumnsWritable(pf: ParseFloat, ns: seq<Bytes>)
    requires ns != []
    ensures AllWritable(pf, [Name(ns[0])] + NamesSentence(ns[1..])) <==> AllNames(ns)
  {
    hide IsName, NamesSentence;
    var head := [Name(ns[0])];
    assert AllWritable(pf, head) <==> IsName(ns[0]) by { assert head[0] == Name(ns[0]); }
    assert AllNames(ns) <==> IsName(ns[0]) && AllNames(ns[1..]) by { assert ns == [ns[0]] + ns[1..]; }
    NamesWritable(pf, ns[1..]);
    hide AllWritable, AllNames;
    WritableConcat(pf, head, NamesSentence(ns[1..]));
  }

  lemma ComparisonWritable(pf: ParseFloat, c: Comparison)
    ensures AllWritable(pf, ComparisonSentence(c)) <==> WritableComparison(pf, c)
  {
    hide IsName, WritableLiteral;
    var ps := ComparisonSentence(c);
    assert Writable(pf, ps[0]) == IsName(c.column) && Writable(pf, ps[1]) && Writable(pf, ps[2]) == WritableLiteral(pf, c.value);
  }

  lemma {:induction false} MoreWritable(pf: ParseFloat, cs: seq<Comparison>, ops: seq<Connective>)
    requires |cs| == |ops|
    ensures AllWritable(pf, MoreSentence(cs, ops)) <==> AllComparisons(pf, cs)
    decreases |cs|
  {
    if cs != [] {
      hide WritableComparison, ComparisonSentence, WritableLiteral;
      var word := [Word(if ops[0] == AndOp then AND else OR)];
      var first, rest := ComparisonSentence(cs[0]), MoreSentence(cs[1..], ops[1..]);
      assert AllWritable(pf, word);
      hide AllWritable;
      MoreWritable(pf, cs[1..], ops[1..]);
      ComparisonWritable(pf, cs[0]);
      ComparisonsSplit(pf, cs);
      hide AllComparisons;
      WritableConcat(pf, word, first);
      WritableConcat(pf, word + first, rest);
    }
  }

  lemma ComparisonsSplit(pf: ParseFloat, cs: seq<Comparison>)
    requires cs != []
    ensures AllComparisons(pf, cs) <==> WritableComparison(pf, cs[0]) && AllComparisons(pf, cs[1..])
  {
  }

  lemma FilterWritable(pf: ParseFloat, q: Query)
    requires q.filter.Some? ==> TwoLevel(q.filter.value)
    ensures AllWritable(pf, FilterSentence(q))
       <==> (q.filter.Some? ==> AllComparisons(pf, Conditions(q.filter.value).0))
  {
    hide Conditions, TwoLevel, WritableComparison, ComparisonSentence, MoreSentence, WritableLiteral;
    if q.filter.Some? {
      var (cs, ops) := Conditions(q.filter.value);
      var word, first, rest := [Word(WHERE)], ComparisonSentence(cs[0]), MoreSentence(cs[1..], ops);
      assert AllWritable(pf, word);
      hide AllWritable;
      MoreWritable(pf, cs[1..], ops);
      ComparisonWritable(pf, cs[0]);
      ComparisonsSplit(pf, cs);
      hide AllComparisons;
      WritableConcat(pf, first, rest);
      WritableConcat(pf, word, first + rest);
    }
  }

  lemma GroupWritable(pf: ParseFloat, groupBy: Bytes)
    ensures AllWritable(pf, GroupSentence(groupBy)) <==> (groupBy != [] ==> IsName(groupBy))
  {
    hide IsName;
    if groupBy != [] {
      var ps := GroupSentence(groupBy);
      assert Writable(pf, ps[0]) && Writable(pf, ps[1]) && Writable(pf, ps[2]) == IsName(groupBy);
    }
  }

  lemma SentenceWritable(pf: ParseFloat, q: Query)
    requires Shaped(q)
    ensures AllWritable(pf, Sentence(q)) <==> Expressible(pf, q)
  {
    var s, p, f, g := [Word(SELECT)], ProjectionSentence(q), FilterSentence(q), GroupSentence(q.groupBy);
    assert AllWritable(pf, s);
    hide AllWritable, TwoLevel, IsName, AllComparisons, Conditions, ProjectionSentence, FilterSentence, GroupSentence;
    ProjectionWritable(pf, q);
    FilterWritable(pf, q);
    GroupWritable(pf, q.groupBy);
    if q.groupBy != [] && AllNames(q.columns) { assert IsName(q.columns[0]); }
    hide AllNames;
    WritableConcat(pf, s + p + f, g);
    WritableConcat(pf, s + p, f);
    WritableConcat(pf, s, p);
  }

  // ---- There and back ----

  /** Parse inverts the printer, on every expressible query: the printed text parses, and to
      the same query, positions apart. */
  lemma ParsePrint(pf: ParseFloat, q: Query)
    requires Expressible(pf, q)
    ensures ParseText(pf, Print(pf, q)).Ok?
    ensures UnplaceQuery(ParseText(pf, Print(pf, q)).value) == UnplaceQuery(q)
  {
    var ps := Sentence(q);
    var ls := Lexemes(pf, ps);
    var toks := Place(ls, 0);
    SentenceWritable(pf, q);
    hide Expressible, Shaped, UnplaceQuery, Fits, ParseText, Render, Tiles, Sentence, AllWritable, AllPrintable;
    PrintedFits(pf, ps);
    LexOfRendering(ls);
    var q' := SentencePlaced(q, toks);
    assert Derives(pf, toks, q');
    ParseTextExact(pf, Render(ls), q');
  }

  lemma {:induction false} AllStand(input: Bytes, ts: seq<Token>, i: nat)
    requires Tiles(input, ts, i)
    ensures forall k :: 0 <= k < |ts| - 1 ==> StandsAt(input, ts[k])
    decreases |ts|
  {
    hide StandsAt, AllSpace;
    if |ts| > 1 {
      AllStand(input, ts[1..], End(ts[0]));
      assert forall k :: 1 <= k < |ts| ==> ts[k] == ts[1..][k - 1];
    }
  }

  lemma StandingIsWritable(pf: ParseFloat, input: Bytes, t: Token, p: Pattern)
    requires StandsAt(input, t) && FitsOne(pf, t, p)
    ensures Writable(pf, p)
  {
    hide IsWord, IsKeyword, IntText, FloatText, ParseInt, Upper;
    if p.Lit? && t.kind == FloatLit {
      assert FloatSpelledBy(pf, p.value.bits, t.text);
    }
  }

  /** Every query Parse returns is expressible, so printing and parsing again changes nothing
      but positions. */
  lemma ParsedIsExpressible(pf: ParseFloat, input: Bytes, q: Query)
    requires ParseText(pf, input) == Ok(q)
    ensures Expressible(pf, q)
  {
    hide ParseText, Tiles, Shaped, Expressible, Writable, FitsOne, StandsAt, Sentence;
    ParseTextExact(pf, input, q);
    var toks :| Tiles(input, toks, 0) && Derives(pf, toks, q);
    AllStand(input, toks, 0);
    var ps := Sentence(q);
    forall k | 0 <= k < |ps| ensures Writable(pf, ps[k]) {
      assert FitsOne(pf, toks[0 + k], ps[k]);
      StandingIsWritable(pf, input, toks[k], ps[k]);
    }
    SentenceWritable(pf, q);
  }
}
