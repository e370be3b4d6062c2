/** The tokenizer (query/parser.go). */
module Lexer {
  import opened Wrappers
  import opened Words

  datatype TokKind = EOF | Ident | Keyword | IntLit | FloatLit | StringLit | Op | Comma | LParen | RParen | Star

  datatype Token = Token(kind: TokKind, text: Bytes, pos: nat)

  // Bytes of the query language.
  const COMMA: byte := 0x2C
  const LPAREN: byte := 0x28
  const RPAREN: byte := 0x29
  const STAR: byte := 0x2A
  const EQUALS: byte := 0x3D
  const BANG: byte := 0x21
  const LESS: byte := 0x3C
  const GREATER: byte := 0x3E
  const QUOTE: byte := 0x27
  const MINUS: byte := 0x2D
  const DOT: byte := 0x2E
  const SPACE: byte := 0x20

  // Keywords, upper case.
  const SELECT: Bytes := [0x53, 0x45, 0x4C, 0x45, 0x43, 0x54]
  const WHERE: Bytes := [0x57, 0x48, 0x45, 0x52, 0x45]
  const COUNT: Bytes := [0x43, 0x4F, 0x55, 0x4E, 0x54]
  const SUM: Bytes := [0x53, 0x55, 0x4D]
  const AND: Bytes := [0x41, 0x4E, 0x44]
  const OR: Bytes := [0x4F, 0x52]
  const GROUP: Bytes := [0x47, 0x52, 0x4F, 0x55, 0x50]
  const BY: Bytes := [0x42, 0x59]
  const HAVING: Bytes := [0x48, 0x41, 0x56, 0x49, 0x4E, 0x47]
  const FROM: Bytes := [0x46, 0x52, 0x4F, 0x4D]

  predicate IsKeyword(w: Bytes) {
    w == SELECT || w == WHERE || w == COUNT || w == SUM || w == AND || w == OR
    || w == GROUP || w == BY || w == HAVING || w == FROM
  }

  /** unicode.IsSpace of a byte taken as a rune: the Latin-1 spaces. */
  predicate IsSpace(c: byte) {
    0x09 <= c <= 0x0D || c == SPACE || c == 0x85 || c == 0xA0
  }

  predicate IsDigit(c: byte) {
    0x30 <= c <= 0x39
  }

  predicate IsIdentStart(c: byte) {
    c == 0x5F || 0x41 <= c <= 0x5A || 0x61 <= c <= 0x7A
  }

  predicate IsIdentPart(c: byte) {
    IsIdentStart(c) || IsDigit(c)
  }

  predicate NotQuote(c: byte) {
    c != QUOTE
  }

  /** strings.ToUpper on a word, which is ASCII. */
  function Upper(w: Bytes): (u: Bytes)
    ensures |u| == |w|
  {
    seq(|w|, i requires 0 <= i < |w| => if 0x61 <= w[i] <= 0x7A then w[i] - 0x20 else w[i])
  }

  /** The words and signs of the language as they are written. */
  lemma Vocabulary()
    ensures SELECT == Ascii("SELECT") && WHERE == Ascii("WHERE") && GROUP == Ascii("GROUP") && BY == Ascii("BY")
    ensures COUNT == Ascii("COUNT") && SUM == Ascii("SUM") && AND == Ascii("AND") && OR == Ascii("OR")
    ensures HAVING == Ascii("HAVING") && FROM == Ascii("FROM")
    ensures [COMMA, LPAREN, RPAREN, STAR] == Ascii(",()*") && [QUOTE, MINUS, DOT, SPACE] == Ascii("'-. ")
    ensures [EQUALS, BANG, LESS, GREATER] == Ascii("=!<>")
    ensures forall w :: IsKeyword(w) <==>
      w in {Ascii("SELECT"), Ascii("WHERE"), Ascii("COUNT"), Ascii("SUM"), Ascii("AND"), Ascii("OR"),
            Ascii("GROUP"), Ascii("BY"), Ascii("HAVING"), Ascii("FROM")}
  {
  }

  /** The classes of bytes. */
  lemma Alphabet(c: byte)
    ensures IsSpace(c) <==> c in {9, 10, 11, 12, 13, 32, 133, 160}
    ensures IsDigit(c) <==> c in Ascii("0123456789")
    ensures IsIdentStart(c) <==>
      c in Ascii("ABCDEFGHIJKLMNOPQRSTUVWXYZ") || c in Ascii("abcdefghijklmnopqrstuvwxyz") || c == '_' as int
    ensures IsIdentPart(c) <==> IsIdentStart(c) || IsDigit(c)
  {
    InRange("0123456789", c, '0', '9');
    InRange("ABCDEFGHIJKLMNOPQRSTUVWXYZ", c, 'A', 'Z');
    InRange("abcdefghijklmnopqrstuvwxyz", c, 'a', 'z');
  }

  /** c is among consecutive characters iff it is between the first and the last. */
  lemma InRange(s: string, c: byte, a: char, b: char)
    requires |s| == b as int - a as int + 1 && b < 128 as char
    requires forall i :: 0 <= i < |s| ==> s[i] as int == a as int + i
    ensures forall i :: 0 <= i < |s| ==> s[i] < 128 as char
    ensures c in Ascii(s) <==> a as int <= c <= b as int
  {
    if a as int <= c <= b as int {
      assert Ascii(s)[c - a as int] == c;
    }
  }

  /** Keywords are recognized in any casing: exactly the lower-case letters change. */
  lemma UpperExactly(w: Bytes, i: nat)
    requires i < |w|
    ensures Upper(w)[i] == if w[i] in Ascii("abcdefghijklmnopqrstuvwxyz") then w[i] - 32 else w[i]
  {
    InRange("abcdefghijklmnopqrstuvwxyz", w[i], 'a', 'z');
  }

  // ---- Scanning ----

  /** The end of the longest stretch of bytes of a class from i on. */
  function RunEnd(input: Bytes, i: nat, p: byte -> bool): (j: nat)
    requires i <= |input|
    ensures i <= j <= |input|
    ensures forall k :: i <= k < j ==> p(input[k])
    ensures j < |input| ==> !p(input[j])
    decreases |input| - i
  {
    if i < |input| && p(input[i]) then RunEnd(input, i + 1, p) else i
  }

  lemma RunEndIs(input: Bytes, i: nat, p: byte -> bool, j: nat)
    requires i <= j <= |input|
    requires forall k :: i <= k < j ==> p(input[k])
    requires j < |input| ==> !p(input[j])
    ensures RunEnd(input, i, p) == j
    decreases j - i
  {
  }

  function WordToken(w: Bytes, pos: nat): Token {
    if IsKeyword(Upper(w)) then Token(Keyword, Upper(w), pos) else Token(Ident, w, pos)
  }

  /** The number from i on: a sign, digits, and possibly a point with more digits. */
  function ScanNumber(input: Bytes, i: nat): (r: (Token, nat))
    requires i < |input| && NumberStart(input, i)
    ensures i < r.1 <= |input| && r.0.kind != EOF
  {
    var digits := RunEnd(input, if input[i] == MINUS then i + 1 else i, IsDigit);
    if digits < |input| && input[digits] == DOT then
      var end := RunEnd(input, digits + 1, IsDigit);
      (Token(FloatLit, input[i..end], i), end)
    else
      (Token(IntLit, input[i..digits], i), digits)
  }

  function ScanWord(input: Bytes, i: nat): (r: (Token, nat))
    requires i < |input| && IsIdentStart(input[i])
    ensures i < r.1 <= |input| && r.0.kind != EOF
  {
    var end := RunEnd(input, i, IsIdentPart);
    assert IsIdentPart(input[i]);
    (WordToken(input[i..end], i), end)
  }

  function NextIs(input: Bytes, i: nat, c: byte): bool {
    i + 1 < |input| && input[i + 1] == c
  }

  predicate SymbolStart(c: byte) {
    c == COMMA || c == LPAREN || c == RPAREN || c == STAR || c == EQUALS || c == BANG || c == LESS || c == GREATER
  }

  function ScanSymbol(input: Bytes, i: nat): (r: Result<(Token, nat), nat>)
    requires i < |input| && SymbolStart(input[i])
    ensures r.Ok? ==> i < r.value.1 <= |input| && r.value.0.kind != EOF
  {
    var c := input[i];
    if c == COMMA then Ok((Token(Comma, [c], i), i + 1))
    else if c == LPAREN then Ok((Token(LParen, [c], i), i + 1))
    else if c == RPAREN then Ok((Token(RParen, [c], i), i + 1))
    else if c == STAR then Ok((Token(Star, [c], i), i + 1))
    else if c == EQUALS then Ok((Token(Op, [c], i), i + 1))
    else if NextIs(input, i, EQUALS) then Ok((Token(Op, [c, EQUALS], i), i + 2))
    else if c == BANG then Err(i)
    else Ok((Token(Op, [c], i), i + 1))
  }

  function ScanString(input: Bytes, i: nat): (r: Result<(Token, nat), nat>)
    requires i < |input| && input[i] == QUOTE
    ensures r.Ok? ==> i < r.value.1 <= |input| && r.value.0.kind != EOF
  {
    var end := RunEnd(input, i + 1, NotQuote);
    if end == |input| then Err(i) else Ok((Token(StringLit, input[i + 1..end], i), end + 1))
  }

  predicate NumberStart(input: Bytes, i: nat)
    requires i < |input|
  {
    IsDigit(input[i]) || (input[i] == MINUS && i + 1 < |input| && IsDigit(input[i + 1]))
  }

  /** One token from i on and where it ends, or the position of the error. */
  function Scan(input: Bytes, i: nat): (r: Result<(Token, nat), nat>)
    requires i < |input|
    ensures r.Ok? ==> i < r.value.1 <= |input| && r.value.0.kind != EOF
  {
    if SymbolStart(input[i]) then ScanSymbol(input, i)
    else if input[i] == QUOTE then ScanString(input, i)
    else if NumberStart(input, i) then Ok(ScanNumber(input, i))
    else if IsIdentStart(input[i]) then Ok(ScanWord(input, i))
    else Err(i)
  }

  function LexFrom(input: Bytes, i: nat): (r: Result<seq<Token>, nat>)
    requires i <= |input|
    decreases |input| - i
  {
    if i == |input| then Ok([Token(EOF, [], |input|)])
    else if IsSpace(input[i]) then LexFrom(input, i + 1)
    else
      match Scan(input, i)
      case Err(pos) => Err(pos)
      case Ok((tok, j)) =>
        match LexFrom(input, j)
        case Err(pos) => Err(pos)
        case Ok(ts) => Ok([tok] + ts)
  }

  // ---- What a tokenization is, without a scanner ----

  function SignLength(t: Bytes): nat {
    if t != [] && t[0] == MINUS then 1 else 0
  }

  predicate IntText(t: Bytes) {
    SignLength(t) < |t| && forall k :: SignLength(t) <= k < |t| ==> IsDigit(t[k])
  }

  ghost predicate FloatTextAt(t: Bytes, d: nat) {
    && SignLength(t) < d < |t| && t[d] == DOT
    && (forall k :: SignLength(t) <= k < d ==> IsDigit(t[k]))
    && (forall k :: d < k < |t| ==> IsDigit(t[k]))
  }

  ghost predicate FloatText(t: Bytes) {
    exists d :: FloatTextAt(t, d)
  }

  ghost predicate IsWord(w: Bytes) {
    w != [] && IsIdentStart(w[0]) && forall k :: 0 <= k < |w| ==> IsIdentPart(w[k])
  }

  /** The bytes a token covers. */
  function Width(t: Token): nat {
    if t.kind == StringLit then |t.text| + 2 else |t.text|
  }

  function End(t: Token): nat {
    t.pos + Width(t)
  }

  ghost predicate NotAt(input: Bytes, i: nat, p: byte -> bool) {
    i < |input| ==> !p(input[i])
  }

  predicate DigitOrDot(c: byte) {
    IsDigit(c) || c == DOT
  }

  predicate IsEquals(c: byte) {
    c == EQUALS
  }

  /** slice is what the input has where the token stands, after is where it ends. Words and
      numbers are maximal, a keyword is any casing of its word, a string loses its quotes. */
  ghost predicate Spells(input: Bytes, t: Token, slice: Bytes, after: nat) {
    match t.kind
    case EOF => false
    case Comma => t.text == slice == [COMMA]
    case LParen => t.text == slice == [LPAREN]
    case RParen => t.text == slice == [RPAREN]
    case Star => t.text == slice == [STAR]
    case Op =>
      && t.text == slice
      && (slice == [EQUALS] || slice == [BANG, EQUALS] || slice == [LESS, EQUALS] || slice == [GREATER, EQUALS]
          || ((slice == [LESS] || slice == [GREATER]) && NotAt(input, after, IsEquals)))
    case StringLit => slice == [QUOTE] + t.text + [QUOTE] && QUOTE !in t.text
    case IntLit => t.text == slice && IntText(slice) && NotAt(input, after, DigitOrDot)
    case FloatLit => t.text == slice && FloatText(slice) && NotAt(input, after, IsDigit)
    case Ident => t.text == slice && IsWord(slice) && !IsKeyword(Upper(slice)) && NotAt(input, after, IsIdentPart)
    case Keyword => t.text == Upper(slice) && IsWord(slice) && IsKeyword(t.text) && NotAt(input, after, IsIdentPart)
  }

  ghost predicate AllSpace(input: Bytes, i: nat, j: nat) {
    i <= j <= |input| && forall k :: i <= k < j ==> IsSpace(input[k])
  }

  ghost predicate StandsAt(input: Bytes, t: Token) {
    End(t) <= |input| && Spells(input, t, input[t.pos..End(t)], End(t))
  }

  /** The tokens cover the input from i on, in order and without overlap, with nothing but
      white space between them, and one EOF closes the list at the end of the input. */
  ghost predicate Tiles(input: Bytes, ts: seq<Token>, i: nat)
    decreases |ts|
  {
    ts != [] && AllSpace(input, i, ts[0].pos) &&
    if |ts| == 1 then ts[0] == Token(EOF, [], |input|)
    else StandsAt(input, ts[0]) && Tiles(input, ts[1..], End(ts[0]))
  }

  // ---- The scanner finds exactly the tokens that stand in the input ----

  ghost predicate FoundAt(input: Bytes, i: nat, r: (Token, nat)) {
    r.0.pos == i && End(r.0) == r.1 && StandsAt(input, r.0)
  }

  lemma SymbolStands(input: Bytes, i: nat)
    requires i < |input| && SymbolStart(input[i]) && ScanSymbol(input, i).Ok?
    ensures FoundAt(input, i, ScanSymbol(input, i).value)
  {
    hide IsWord, IntText, FloatText, IsKeyword;
    var (t, j) := ScanSymbol(input, i).value;
    assert input[i..j] == t.text;
  }

  lemma StringStands(input: Bytes, i: nat)
    requires i < |input| && input[i] == QUOTE && ScanString(input, i).Ok?
    ensures FoundAt(input, i, ScanString(input, i).value)
  {
  }

  lemma NumberStands(input: Bytes, i: nat)
    requires i < |input| && NumberStart(input, i)
    ensures FoundAt(input, i, ScanNumber(input, i))
  {
    hide IsWord, IsKeyword;
    var (t, j) := ScanNumber(input, i);
    var s := if input[i] == MINUS then 1 else 0;
    var d := RunEnd(input, i + s, IsDigit);
    assert IsDigit(input[i + s]);
    var slice := input[i..j];
    assert forall k :: 0 <= k < |slice| ==> slice[k] == input[i + k];
    assert SignLength(slice) == s;
    if t.kind == FloatLit {
      assert FloatTextAt(slice, d - i);
    }
  }

  lemma WordStands(input: Bytes, i: nat)
    requires i < |input| && IsIdentStart(input[i])
    ensures FoundAt(input, i, ScanWord(input, i))
  {
  }

  lemma ScanStands(input: Bytes, i: nat)
    requires i < |input| && Scan(input, i).Ok?
    ensures FoundAt(input, i, Scan(input, i).value)
  {
    hide ScanSymbol, ScanString, ScanNumber, ScanWord, FoundAt;
    if SymbolStart(input[i]) {
      SymbolStands(input, i);
    } else if input[i] == QUOTE {
      StringStands(input, i);
    } else if NumberStart(input, i) {
      NumberStands(input, i);
    } else {
      WordStands(input, i);
    }
  }

  /** A token standing in the input is the one the scanner finds there. */
  ghost predicate IsScanned(input: Bytes, t: Token) {
    t.pos < |input| && !IsSpace(input[t.pos]) && Scan(input, t.pos) == Ok((t, End(t)))
  }

  lemma StandingSymbol(input: Bytes, t: Token)
    requires StandsAt(input, t) && (t.kind.Op? || t.kind.Comma? || t.kind.LParen? || t.kind.RParen? || t.kind.Star?)
    ensures IsScanned(input, t)
  {
    hide IsWord, IntText, FloatText, IsKeyword, ScanNumber, ScanWord, ScanString;
    assert forall k :: t.pos <= k < End(t) ==> input[k] == t.text[k - t.pos];
    assert input[t.pos] == t.text[0];
    if |t.text| == 2 { assert input[t.pos + 1] == t.text[1]; }
  }

  lemma StandingString(input: Bytes, t: Token)
    requires StandsAt(input, t) && t.kind.StringLit?
    ensures IsScanned(input, t)
  {
    hide IsWord, IntText, FloatText, IsKeyword, ScanNumber, ScanWord, ScanSymbol;
    QuotedSlice(input, t.pos, End(t), t.text);
    RunEndIs(input, t.pos + 1, NotQuote, End(t) - 1);
  }

  lemma QuotedSlice(input: Bytes, i: nat, j: nat, text: Bytes)
    requires i <= j <= |input| && input[i..j] == [QUOTE] + text + [QUOTE] && QUOTE !in text
    ensures j == i + |text| + 2 && input[i] == QUOTE && input[j - 1] == QUOTE && input[i + 1..j - 1] == text
    ensures forall k :: i + 1 <= k < j - 1 ==> NotQuote(input[k])
  {
    var slice := input[i..j];
    assert slice[0] == input[i] && slice[|slice| - 1] == input[j - 1];
    assert slice[1..|slice| - 1] == text;
    SliceOfSlice(input, i, j, 1, |slice| - 1);
    forall k | i + 1 <= k < j - 1 ensures NotQuote(input[k]) {
      assert input[k] == input[i + 1..j - 1][k - (i + 1)];
    }
  }

  lemma StandingSign(input: Bytes, i: nat, j: nat)
    requires i < j <= |input|
    requires var t := input[i..j]; SignLength(t) < |t| && IsDigit(t[SignLength(t)])
    ensures SignLength(input[i..j]) == (if input[i] == MINUS then 1 else 0)
    ensures NumberStart(input, i) && !SymbolStart(input[i]) && input[i] != QUOTE && !IsSpace(input[i])
    ensures Scan(input, i) == Ok(ScanNumber(input, i))
  {
    var t := input[i..j];
    assert t[0] == input[i] && t[SignLength(t)] == input[i + SignLength(t)];
    hide ScanSymbol, ScanString, ScanWord, ScanNumber;
  }

  lemma StandingInt(input: Bytes, t: Token)
    requires StandsAt(input, t) && t.kind.IntLit?
    ensures IsScanned(input, t)
  {
    hide IsWord, IsKeyword, Scan;
    var i, j := t.pos, End(t);
    var slice := input[i..j];
    var s := SignLength(slice);
    assert IsDigit(slice[s]);
    StandingSign(input, i, j);
    forall k | i + s <= k < j ensures IsDigit(input[k]) { assert input[k] == slice[k - i]; }
    RunEndIs(input, i + s, IsDigit, j);
  }

  lemma StandingFloat(input: Bytes, t: Token)
    requires StandsAt(input, t) && t.kind.FloatLit?
    ensures IsScanned(input, t)
  {
    hide IsWord, IsKeyword, Scan, ScanNumber;
    var i, j := t.pos, End(t);
    var slice := input[i..j];
    var d: nat :| FloatTextAt(slice, d);
    assert IsDigit(slice[SignLength(slice)]);
    StandingSign(input, i, j);
    hide FloatText, NumberStart, NotAt, IsSpace;
    FloatIsScanned(input, i, j, d);
  }

  lemma FloatIsScanned(input: Bytes, i: nat, j: nat, d: nat)
    requires i < j <= |input| && NumberStart(input, i) && FloatTextAt(input[i..j], d) && NotAt(input, j, IsDigit)
    ensures ScanNumber(input, i) == (Token(FloatLit, input[i..j], i), j)
  {
    var slice := input[i..j];
    assert slice[0] == input[i] && slice[d] == input[i + d];
    var s := SignLength(slice);
    forall k | i + s <= k < i + d ensures IsDigit(input[k]) { assert input[k] == slice[k - i]; }
    forall k | i + d + 1 <= k < j ensures IsDigit(input[k]) { assert input[k] == slice[k - i]; }
    hide FloatTextAt;
    RunEndIs(input, i + s, IsDigit, i + d);
    RunEndIs(input, i + d + 1, IsDigit, j);
  }

  lemma StandingWord(input: Bytes, t: Token)
    requires StandsAt(input, t) && (t.kind.Ident? || t.kind.Keyword?)
    ensures IsScanned(input, t)
  {
    hide IntText, FloatText, IsKeyword, ScanNumber, ScanString, ScanSymbol;
    var i, j := t.pos, End(t);
    var slice := input[i..j];
    assert forall k :: 0 <= k < |slice| ==> slice[k] == input[i + k];
    assert IsIdentStart(input[i]);
    RunEndIs(input, i, IsIdentPart, j);
  }

  lemma StandingIsScanned(input: Bytes, t: Token)
    requires StandsAt(input, t)
    ensures IsScanned(input, t)
  {
    hide IsScanned;
    if t.kind.IntLit? {
      StandingInt(input, t);
    } else if t.kind.FloatLit? {
      StandingFloat(input, t);
    } else if t.kind.Ident? || t.kind.Keyword? {
      StandingWord(input, t);
    } else if t.kind.StringLit? {
      StandingString(input, t);
    } else {
      StandingSymbol(input, t);
    }
  }

  lemma {:induction false} LexTiles(input: Bytes, i: nat)
    requires i <= |input| && LexFrom(input, i).Ok?
    ensures Tiles(input, LexFrom(input, i).value, i)
    decreases |input| - i
  {
    hide Scan, StandsAt;
    var ts := LexFrom(input, i).value;
    if i == |input| {
    } else if IsSpace(input[i]) {
      LexTiles(input, i + 1);
    } else {
      ScanStands(input, i);
      var (t, j) := Scan(input, i).value;
      LexTiles(input, j);
      var rest := LexFrom(input, j).value;
      assert ts == [t] + rest && ts[1..] == rest;
    }
  }

  lemma {:induction false} SkipSpace(input: Bytes, i: nat, j: nat)
    requires AllSpace(input, i, j)
    ensures LexFrom(input, i) == LexFrom(input, j)
    decreases j - i
  {
    hide Scan;
    if i < j {
      SkipSpace(input, i + 1, j);
    }
  }

  lemma {:induction false} TilingIsLexed(input: Bytes, ts: seq<Token>, i: nat)
    requires Tiles(input, ts, i)
    ensures i <= |input| && LexFrom(input, i) == Ok(ts)
    decreases |ts|
  {
    SkipSpace(input, i, ts[0].pos);
    hide Scan, StandsAt;
    if |ts| > 1 {
      StandingIsScanned(input, ts[0]);
      TilingIsLexed(input, ts[1..], End(ts[0]));
      assert ts == [ts[0]] + ts[1..];
    } else {
      assert ts == [ts[0]];
    }
  }

  /** Tokenizing succeeds with ts iff ts tiles the input; in particular there is at most one
      tiling. */
  lemma LexExact(input: Bytes, ts: seq<Token>)
    ensures LexFrom(input, 0) == Ok(ts) <==> Tiles(input, ts, 0)
  {
    hide LexFrom, Tiles;
    if LexFrom(input, 0) == Ok(ts) {
      LexTiles(input, 0);
    }
    if Tiles(input, ts, 0) {
      TilingIsLexed(input, ts, 0);
    }
  }

  // ---- Errors ----

  /** The tokens cover the input from i to j, in order, with only white space between. */
  ghost predicate TilesTo(input: Bytes, ts: seq<Token>, i: nat, j: nat)
    decreases |ts|
  {
    if ts == [] then AllSpace(input, i, j)
    else AllSpace(input, i, ts[0].pos) && StandsAt(input, ts[0]) && TilesTo(input, ts[1..], End(ts[0]), j)
  }

  /** Behind tokens and white space, at j there is a byte that is no space and no token. */
  ghost predicate StuckAt(input: Bytes, ts: seq<Token>, i: nat, j: nat) {
    && TilesTo(input, ts, i, j) && j < |input| && !IsSpace(input[j])
    && forall t: Token :: t.pos == j ==> !StandsAt(input, t)
  }

  lemma {:induction false} LexStuck(input: Bytes, i: nat) returns (ts: seq<Token>)
    requires i <= |input| && LexFrom(input, i).Err?
    ensures StuckAt(input, ts, i, LexFrom(input, i).error)
    decreases |input| - i
  {
    if IsSpace(input[i]) {
      ts := LexStuck(input, i + 1);
      SpaceInFront(input, ts, i, LexFrom(input, i).error);
    } else if Scan(input, i).Err? {
      ts := [];
      ScanErrorIsHere(input, i);
      forall t: Token | t.pos == i ensures !StandsAt(input, t) {
        if StandsAt(input, t) {
          StandingIsScanned(input, t);
          assert false;
        }
      }
    } else {
      ScanStands(input, i);
      var (t, j) := Scan(input, i).value;
      hide Scan, StandsAt;
      var rest := LexStuck(input, j);
      ts := [t] + rest;
      assert ts[1..] == rest;
    }
  }

  lemma SpaceInFront(input: Bytes, ts: seq<Token>, i: nat, j: nat)
    requires i < |input| && IsSpace(input[i]) && TilesTo(input, ts, i + 1, j)
    ensures TilesTo(input, ts, i, j)
  {
    hide StandsAt;
  }

  lemma ScanErrorIsHere(input: Bytes, i: nat)
    requires i < |input| && Scan(input, i).Err?
    ensures Scan(input, i).error == i
  {
    hide ScanNumber, ScanWord;
  }

  lemma {:induction false} StuckIsError(input: Bytes, ts: seq<Token>, i: nat, j: nat)
    requires StuckAt(input, ts, i, j)
    ensures i <= |input| && LexFrom(input, i) == Err(j)
    decreases |ts|
  {
    if ts == [] {
      SkipSpace(input, i, j);
      if Scan(input, j).Ok? {
        ScanStands(input, j);
      }
      ScanErrorHere(input, j);
    } else {
      SkipSpace(input, i, ts[0].pos);
      hide Scan, StandsAt;
      StandingIsScanned(input, ts[0]);
      StuckIsError(input, ts[1..], End(ts[0]), j);
    }
  }

  lemma ScanErrorHere(input: Bytes, i: nat)
    requires i < |input|
    ensures Scan(input, i).Err? ==> Scan(input, i).error == i
  {
    if Scan(input, i).Err? { ScanErrorIsHere(input, i); }
  }

  /** The position of an error is that of the first byte no token can start at. */
  lemma LexErrorExactly(input: Bytes, j: nat)
    ensures LexFrom(input, 0) == Err(j) <==> exists ts :: StuckAt(input, ts, 0, j)
  {
    hide LexFrom, StuckAt;
    if LexFrom(input, 0) == Err(j) {
      var ts := LexStuck(input, 0);
    }
    forall ts | StuckAt(input, ts, 0, j) ensures LexFrom(input, 0) == Err(j) {
      StuckIsError(input, ts, 0, j);
    }
  }

  // ---- The routine ----

  method SkipRun(input: Bytes, start: nat, p: byte -> bool) returns (i: nat)
    requires start <= |input|
    ensures i == RunEnd(input, start, p)
  {
    i := start;
    while i < |input| && p(input[i])
      invariant start <= i <= |input|
      invariant forall k :: start <= k < i ==> p(input[k])
    {
      i := i + 1;
    }
    RunEndIs(input, start, p, i);
  }

  method LexNumber(input: Bytes, start: nat) returns (r: (Token, nat))
    requires start < |input| && NumberStart(input, start)
    ensures r == ScanNumber(input, start)
  {
    var i := start;
    if input[i] == MINUS {
      i := i + 1;
    }
    i := SkipRun(input, i, IsDigit);
    var isFloat := false;
    if i < |input| && input[i] == DOT {
      isFloat := true;
      i := i + 1;
      i := SkipRun(input, i, IsDigit);
    }
    var text := input[start..i];
    if isFloat {
      return (Token(FloatLit, text, start), i);
    }
    return (Token(IntLit, text, start), i);
  }

  /** The cases of lex that produce a token. */
  method LexToken(input: Bytes, i: nat) returns (r: Result<(Token, nat), nat>)
    requires i < |input| && !IsSpace(input[i])
    ensures r == Scan(input, i)
  {
    hide IsKeyword, Upper, RunEnd, ScanNumber;
    var c := input[i];
    if c == COMMA {
      return Ok((Token(Comma, [c], i), i + 1));
    } else if c == LPAREN {
      return Ok((Token(LParen, [c], i), i + 1));
    } else if c == RPAREN {
      return Ok((Token(RParen, [c], i), i + 1));
    } else if c == STAR {
      return Ok((Token(Star, [c], i), i + 1));
    } else if c == EQUALS {
      return Ok((Token(Op, [c], i), i + 1));
    } else if c == BANG {
      if i + 1 < |input| && input[i + 1] == EQUALS {
        return Ok((Token(Op, [BANG, EQUALS], i), i + 2));
      }
      return Err(i);
    } else if c == LESS || c == GREATER {
      if i + 1 < |input| && input[i + 1] == EQUALS {
        return Ok((Token(Op, [c, EQUALS], i), i + 2));
      }
      return Ok((Token(Op, [c], i), i + 1));
    } else if c == QUOTE {
      var j := SkipRun(input, i + 1, NotQuote);
      if j >= |input| {
        return Err(i);
      }
      return Ok((Token(StringLit, input[i + 1..j], i), j + 1));
    } else if IsDigit(c) || (c == MINUS && i + 1 < |input| && IsDigit(input[i + 1])) {
      var number := LexNumber(input, i);
      return Ok(number);
    } else if IsIdentStart(c) {
      var j := SkipRun(input, i, IsIdentPart);
      var text := input[i..j];
      return Ok((if IsKeyword(Upper(text)) then Token(Keyword, Upper(text), i) else Token(Ident, text, i), j));
    }
    return Err(i);
  }

  method Lex(input: Bytes) returns (r: Result<seq<Token>, nat>)
    ensures r == LexFrom(input, 0)
  {
    hide Scan;
    var out: seq<Token> := [];
    var i := 0;
    ghost var whole := LexFrom(input, 0);
    if whole.Ok? { ConcatNil(whole.value); }
    while i < |input|
      invariant i <= |input|
      invariant match LexFrom(input, i)
                case Err(pos) => whole == Err(pos)
                case Ok(ts) => whole == Ok(out + ts)
      decreases |input| - i
    {
      if IsSpace(input[i]) {
        i := i + 1;
        continue;
      }
      var tok := LexToken(input, i);
      if tok.Err? {
        return Err(tok.error);
      }
      if LexFrom(input, tok.value.1).Ok? {
        ConcatAssoc(out, [tok.value.0], LexFrom(input, tok.value.1).value);
      }
      out := out + [tok.value.0];
      i := tok.value.1;
    }
    return Ok(out + [Token(EOF, [], |input|)]);
  }
}
