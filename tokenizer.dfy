/** The tokenizer shared by the orchestrator and the direct evaluator: one pass
    over the characters that collects digits, '.' and ',' (rewritten to '.')
    into numerals, drops whitespace and makes every other character a token
    of its own. The three copies in the repository are the same text, so one
    model serves them all. */
module Tokenizer {
  import opened Numbers

  /** Characters that extend the numeral being read. */
  predicate IsNumeralChar(c: char) {
    IsDigit(c) || c == '.' || c == ','
  }

  /** The characters a numeral token may hold once ',' has been rewritten. */
  predicate IsNumeral(t: string) {
    t != [] && forall i :: 0 <= i < |t| ==> IsDigit(t[i]) || t[i] == '.'
  }

  /** The two kinds of token the tokenizer emits. */
  predicate IsToken(t: string) {
    IsNumeral(t) || (|t| == 1 && !IsNumeralChar(t[0]) && !IsSpace(t[0]))
  }

  /** The pending numeral as a token list: nothing when it is empty. */
  function Flush(current: string): seq<string> {
    if current == [] then [] else [current]
  }

  /** The tokens produced from the rest s of the input when current holds the
      numeral read so far. */
  function Scan(s: string, current: string): seq<string>
    decreases |s|
  {
    if s == [] then Flush(current)
    else
      var c := s[0];
      if IsDigit(c) || c == '.' then Scan(s[1..], current + [c])
      else if c == ',' then Scan(s[1..], current + ".")
      else Flush(current) + (if IsSpace(c) then [] else [[c]]) + Scan(s[1..], [])
  }

  /** The token list of an expression. */
  function Tokens(expression: string): seq<string> {
    Scan(expression, [])
  }

  /** tokenize: the loop over the characters with the numeral buffer current. */
  method Tokenize(expression: string) returns (tokens: seq<string>)
    ensures tokens == Tokens(expression)
  {
    tokens := [];
    var current := "";
    for i := 0 to |expression|
      invariant tokens + Scan(expression[i..], current) == Tokens(expression)
    {
      var c := expression[i];
      ghost var rest := expression[i + 1..];
      assert expression[i..] == [c] + rest;
      ScanStep(c, rest, current);
      if IsDigit(c) || c == '.' {
        current := current + [c];
      } else if c == ',' {
        current := current + ".";
      } else {
        ghost var before, pending := tokens, current;
        if current != "" {
          tokens := tokens + [current];
          current := "";
        }
        assert tokens == before + Flush(pending);
        if !IsSpace(c) {
          tokens := tokens + [[c]];
        }
        Separated(before, pending, c, tokens, Scan(rest, []));
      }
    }
    assert expression[|expression|..] == [];
    if current != "" {
      tokens := tokens + [current];
    }
  }

  /** The tokens a separator character c adds: the pending numeral, then c
      itself unless it is whitespace. */
  lemma Separated(before: seq<string>, pending: string, c: char, tokens: seq<string>, tail: seq<string>)
    requires tokens == before + Flush(pending) + (if IsSpace(c) then [] else [[c]])
    ensures tokens + tail == before + (Flush(pending) + (if IsSpace(c) then [] else [[c]]) + tail)
  {
  }

  /** One step of Scan, unfolded. */
  lemma ScanStep(c: char, rest: string, current: string)
    ensures Scan([c] + rest, current)
         == if IsDigit(c) || c == '.' then Scan(rest, current + [c])
            else if c == ',' then Scan(rest, current + ".")
            else Flush(current) + (if IsSpace(c) then [] else [[c]]) + Scan(rest, [])
  {
    assert ([c] + rest)[1..] == rest;
  }

  /** The input without whitespace and with every ',' replaced by '.'. */
  function Normalize(s: string): string {
    if s == [] then []
    else if IsSpace(s[0]) then Normalize(s[1..])
    else [if s[0] == ',' then '.' else s[0]] + Normalize(s[1..])
  }

  /** The characters of a token list, in order. */
  function Concat(ts: seq<string>): string {
    if ts == [] then [] else ts[0] + Concat(ts[1..])
  }

  lemma {:induction false} ConcatAppend(a: seq<string>, b: seq<string>)
    ensures Concat(a + b) == Concat(a) + Concat(b)
  {
    if a != [] {
      assert (a + b)[1..] == a[1..] + b;
      ConcatAppend(a[1..], b);
    } else {
      assert a + b == b;
    }
  }

  lemma {:induction false} ScanConcat(s: string, current: string)
    ensures Concat(Scan(s, current)) == current + Normalize(s)
    decreases |s|
  {
    if s == [] {
      assert Concat(Flush(current)) == current;
    } else {
      var c, rest := s[0], s[1..];
      assert s == [c] + rest;
      if IsNumeralChar(c) {
        var x := if c == ',' then "." else [c];
        ScanConcat(rest, current + x);
        ConcatExtend(c, rest, current, x);
      } else {
        ScanConcat(rest, []);
        ConcatBreak(c, rest, current);
      }
    }
  }

  /** The step of ScanConcat for a numeral character, which extends current by x. */
  lemma ConcatExtend(c: char, rest: string, current: string, x: string)
    requires IsNumeralChar(c) && x == if c == ',' then "." else [c]
    requires Concat(Scan(rest, current + x)) == current + x + Normalize(rest)
    ensures Concat(Scan([c] + rest, current)) == current + Normalize([c] + rest)
  {
    ScanStep(c, rest, current);
    assert ([c] + rest)[1..] == rest;
    Associative(current, x, Normalize(rest));
  }

  /** The step of ScanConcat for any other character, which closes current. */
  lemma ConcatBreak(c: char, rest: string, current: string)
    requires !IsNumeralChar(c)
    requires Concat(Scan(rest, [])) == [] + Normalize(rest)
    ensures Concat(Scan([c] + rest, current)) == current + Normalize([c] + rest)
  {
    var emitted: seq<string> := if IsSpace(c) then [] else [[c]];
    ScanStep(c, rest, current);
    assert ([c] + rest)[1..] == rest;
    ConcatFlush(current, emitted, Scan(rest, []));
    assert Normalize([c] + rest) == Concat(emitted) + Normalize(rest);
    assert [] + Normalize(rest) == Normalize(rest);
    Associative(current, Concat(emitted), Normalize(rest));
  }

  lemma ConcatFlush(current: string, emitted: seq<string>, tail: seq<string>)
    ensures Concat(Flush(current) + emitted + tail) == current + Concat(emitted) + Concat(tail)
  {
    ConcatAppend(Flush(current) + emitted, tail);
    ConcatAppend(Flush(current), emitted);
    assert Concat(Flush(current)) == current;
  }

  /** Joining the tokens gives back the input without its whitespace and with
      ',' read as '.': the tokenizer loses nothing else. */
  lemma TokensConcat(expression: string)
    ensures Concat(Tokens(expression)) == Normalize(expression)
  {
    ScanConcat(expression, []);
  }

  lemma {:induction false} ScanTokens(s: string, current: string)
    requires current == [] || IsNumeral(current)
    ensures forall t :: t in Scan(s, current) ==> IsToken(t)
    decreases |s|
  {
    if s != [] {
      var c := s[0];
      if IsDigit(c) || c == '.' {
        ScanTokens(s[1..], current + [c]);
      } else if c == ',' {
        ScanTokens(s[1..], current + ".");
      } else {
        ScanTokens(s[1..], []);
      }
    }
  }

  /** Every token is a non-empty run of digits and '.', or one character that is
      neither part of a numeral nor whitespace; in particular no token is empty
      and none holds whitespace or ','. */
  lemma TokensAreTokens(expression: string)
    ensures forall t :: t in Tokens(expression) ==> IsToken(t) && t != []
    ensures forall t, i :: t in Tokens(expression) && 0 <= i < |t| ==> !IsSpace(t[i]) && t[i] != ','
  {
    ScanTokens(expression, []);
  }

  /** A run of numeral characters, ',' read as '.'. */
  function NormalizeRun(r: string): string {
    if r == [] then [] else [if r[0] == ',' then '.' else r[0]] + NormalizeRun(r[1..])
  }

  predicate AllNumeralChars(r: string) {
    forall i :: 0 <= i < |r| ==> IsNumeralChar(r[i])
  }

  /** Text that ends with a character outside numerals leaves nothing pending. */
  predicate EndsOutsideNumeral(a: string) {
    a == [] || !IsNumeralChar(a[|a| - 1])
  }

  predicate StartsOutsideNumeral(b: string) {
    b == [] || !IsNumeralChar(b[0])
  }

  lemma {:induction false} ScanRun(r: string, b: string, current: string)
    requires AllNumeralChars(r) && StartsOutsideNumeral(b)
    ensures Scan(r + b, current) == Scan(b, current + NormalizeRun(r))
    decreases |r|
  {
    if r == [] {
      assert r + b == b;
      assert current + NormalizeRun(r) == current;
    } else {
      assert (r + b)[0] == r[0];
      assert (r + b)[1..] == r[1..] + b;
      var c := if r[0] == ',' then '.' else r[0];
      ScanRun(r[1..], b, current + [c]);
      assert current + [c] + NormalizeRun(r[1..]) == current + NormalizeRun(r);
    }
  }

  lemma {:induction false} ScanSplit(a: string, x: string, current: string)
    requires EndsOutsideNumeral(a) && a != []
    ensures Scan(a + x, current) == Scan(a, current) + Scan(x, [])
    decreases |a|
  {
    var c, tail := a[0], a[1..];
    assert a == [c] + tail;
    assert a + x == [c] + (tail + x);
    ScanStep(c, tail + x, current);
    ScanStep(c, tail, current);
    if IsNumeralChar(c) {
      assert tail != [] && tail[|tail| - 1] == a[|a| - 1];
      var next := if c == ',' then current + "." else current + [c];
      assert Scan(a + x, current) == Scan(tail + x, next);
      assert Scan(a, current) == Scan(tail, next);
      ScanSplit(tail, x, next);
    } else {
      var head := Flush(current) + (if IsSpace(c) then [] else [[c]]);
      assert Scan(a + x, current) == head + Scan(tail + x, []);
      assert Scan(a, current) == head + Scan(tail, []);
      if tail == [] {
        assert tail + x == x;
        assert head + [] == head;
      } else {
        assert tail[|tail| - 1] == a[|a| - 1];
        ScanSplit(tail, x, []);
        assert head + (Scan(tail, []) + Scan(x, [])) == (head + Scan(tail, [])) + Scan(x, []);
      }
    }
  }

  /** A pending numeral is emitted as soon as a character outside numerals follows. */
  lemma ScanPending(b: string, n: string)
    requires StartsOutsideNumeral(b) && n != []
    ensures Scan(b, n) == [n] + Scan(b, [])
  {
    if b != [] {
      var c, rest := b[0], b[1..];
      assert b == [c] + rest;
      ScanBreak(c, rest, n);
      ScanBreak(c, rest, []);
      FlushFront(n, if IsSpace(c) then [] else [[c]], Scan(rest, []));
    }
  }

  /** One step of Scan on a character outside numerals. */
  lemma ScanBreak(c: char, rest: string, current: string)
    requires !IsNumeralChar(c)
    ensures Scan([c] + rest, current) == Flush(current) + (if IsSpace(c) then [] else [[c]]) + Scan(rest, [])
  {
    ScanStep(c, rest, current);
  }

  lemma FlushFront(n: string, emitted: seq<string>, tail: seq<string>)
    requires n != []
    ensures Flush(n) + emitted + tail == [n] + (Flush([]) + emitted + tail)
  {
    assert Flush([]) + emitted == emitted;
  }

  /** A run of numeral characters at the start of the text is one token. */
  lemma RunAlone(r: string, b: string)
    requires r != [] && AllNumeralChars(r) && StartsOutsideNumeral(b)
    ensures Scan(r + b, []) == [NormalizeRun(r)] + Scan(b, [])
  {
    var n := NormalizeRun(r);
    assert n != [];
    ScanRun(r, b, []);
    assert [] + n == n;
    ScanPending(b, n);
  }

  lemma Associative(a: string, r: string, b: string)
    ensures a + r + b == a + (r + b)
  {
  }

  /** A maximal run of digits, '.' and ',' becomes exactly one token, with the
      tokens of the text on either side around it. */
  lemma MaximalRun(a: string, r: string, b: string)
    requires r != [] && AllNumeralChars(r)
    requires EndsOutsideNumeral(a) && StartsOutsideNumeral(b)
    ensures Tokens(a + r + b) == Tokens(a) + [NormalizeRun(r)] + Tokens(b)
  {
    var n, rb, ta, tb := NormalizeRun(r), r + b, Tokens(a), Tokens(b);
    RunAlone(r, b);
    Associative(a, r, b);
    if a != [] {
      ScanSplit(a, rb, []);
      assert Tokens(a + rb) == ta + ([n] + tb);
    } else {
      assert a + rb == rb;
      assert ta == [];
    }
    assert ta + ([n] + tb) == ta + [n] + tb;
  }

  /** One step of Scan for each kind of character, unfolded. */
  lemma ScanDigit(c: char, rest: string, current: string)
    requires IsDigit(c)
    ensures Scan([c] + rest, current) == Scan(rest, current + [c])
  {
    ScanStep(c, rest, current);
  }

  lemma ScanSpace(rest: string, current: string)
    ensures Scan([' '] + rest, current) == Flush(current) + Scan(rest, [])
  {
    ScanStep(' ', rest, current);
  }

  lemma ScanSymbol(c: char, rest: string, current: string)
    requires !IsNumeralChar(c) && !IsSpace(c)
    ensures Scan([c] + rest, current) == Flush(current) + [[c]] + Scan(rest, [])
  {
    ScanStep(c, rest, current);
  }

  /** An operand digit, an operator and the rest, separated by single spaces. */
  lemma TokensBinary(a: char, op: char, rest: string)
    requires IsDigit(a) && !IsNumeralChar(op) && !IsSpace(op)
    ensures Tokens([a, ' ', op, ' '] + rest) == [[a], [op]] + Tokens(rest)
  {
    var s3 := [' '] + rest;
    var s2 := [op] + s3;
    var s1 := [' '] + s2;
    assert [a, ' ', op, ' '] + rest == [a] + s1;
    ScanDigit(a, s1, []);
    assert [] + [a] == [a];
    ScanSpace(s2, [a]);
    ScanSymbol(op, s3, []);
    ScanSpace(rest, []);
  }

  /** A lone digit. */
  lemma TokensDigit(a: char)
    requires IsDigit(a)
    ensures Tokens([a]) == [[a]]
  {
    ScanDigit(a, [], []);
    assert [a] == [a] + [];
    assert [] + [a] == [a];
  }

  /** Two operand digits around an operator, separated by single spaces. */
  lemma TokensSimple(a: char, op: char, b: char)
    requires IsDigit(a) && IsDigit(b) && !IsNumeralChar(op) && !IsSpace(op)
    ensures Tokens([a, ' ', op, ' ', b]) == [[a], [op], [b]]
  {
    TokensBinary(a, op, [b]);
    TokensDigit(b);
    assert [a, ' ', op, ' ', b] == [a, ' ', op, ' '] + [b];
  }

  /** Three operand digits and two operators, separated by single spaces. */
  lemma TokensCompound(a: char, op: char, b: char, op2: char, c: char)
    requires IsDigit(a) && IsDigit(b) && IsDigit(c)
    requires !IsNumeralChar(op) && !IsSpace(op) && !IsNumeralChar(op2) && !IsSpace(op2)
    ensures Tokens([a, ' ', op, ' ', b, ' ', op2, ' ', c]) == [[a], [op], [b], [op2], [c]]
  {
    TokensBinary(a, op, [b, ' ', op2, ' ', c]);
    TokensSimple(b, op2, c);
    assert [a, ' ', op, ' ', b, ' ', op2, ' ', c] == [a, ' ', op, ' '] + [b, ' ', op2, ' ', c];
  }

  /** A pending numeral closed by a space, then an operator and a digit. */
  lemma ScanSpaced(current: string, op: char, b: char)
    requires current != [] && IsDigit(b) && !IsNumeralChar(op) && !IsSpace(op)
    ensures Scan([' ', op, ' ', b], current) == [current, [op], [b]]
  {
    assert [' ', op, ' ', b] == [' '] + [op, ' ', b];
    ScanSpace([op, ' ', b], current);
    assert [op, ' ', b] == [op] + [' ', b];
    ScanSymbol(op, [' ', b], []);
    assert [' ', b] == [' '] + [b];
    ScanSpace([b], []);
    TokensDigit(b);
  }

  /** A two-digit operand, an operator and a digit, separated by single spaces. */
  lemma TokensWide(a: char, a2: char, op: char, b: char)
    requires IsDigit(a) && IsDigit(a2) && IsDigit(b) && !IsNumeralChar(op) && !IsSpace(op)
    ensures Tokens([a, a2, ' ', op, ' ', b]) == [[a, a2], [op], [b]]
  {
    assert [a, a2, ' ', op, ' ', b] == [a] + [a2, ' ', op, ' ', b];
    ScanDigit(a, [a2, ' ', op, ' ', b], []);
    assert [] + [a] == [a];
    ScanSecondDigit(a, a2, op, b);
  }

  lemma ScanSecondDigit(a: char, a2: char, op: char, b: char)
    requires IsDigit(a2) && IsDigit(b) && !IsNumeralChar(op) && !IsSpace(op)
    ensures Scan([a2, ' ', op, ' ', b], [a]) == [[a, a2], [op], [b]]
  {
    assert [a2, ' ', op, ' ', b] == [a2] + [' ', op, ' ', b];
    ScanDigit(a2, [' ', op, ' ', b], [a]);
    assert [a] + [a2] == [a, a2];
    ScanSpaced([a, a2], op, b);
  }

  /** A leading operator or other single-character token. */
  lemma TokensLead(c: char, rest: string)
    requires !IsNumeralChar(c) && !IsSpace(c)
    ensures Tokens([c] + rest) == [[c]] + Tokens(rest)
  {
    ScanSymbol(c, rest, []);
  }

  /** The token lists of the repository's test expressions. */
  lemma TokensExampleSum()
    ensures Tokens("2 + 3") == ["2", "+", "3"]
  {
    TokensSimple('2', '+', '3');
  }

  lemma TokensExampleProduct()
    ensures Tokens("2 + 3 * 4") == ["2", "+", "3", "*", "4"]
  {
    TokensCompound('2', '+', '3', '*', '4');
  }

  lemma TokensExampleRepeated()
    ensures Tokens("2 + + 3") == ["2", "+", "+", "3"]
  {
    TokensBinary('2', '+', "+ 3");
    assert "2 + + 3" == ['2', ' ', '+', ' '] + "+ 3";
    assert "+ 3" == ['+'] + " 3";
    ScanSymbol('+', " 3", []);
    assert " 3" == [' '] + "3";
    ScanSpace("3", []);
    TokensDigit('3');
  }
}
