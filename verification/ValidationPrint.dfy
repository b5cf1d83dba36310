/**
 Writing a datatype expression and compiling the text gives the expression back,
 flattened: numbers, quoted strings with backslash, comma and parentheses escaped, and
 nested calls, with blanks before tokens and after those that no parenthesis closes.
 */
module ValidationPrint {
  import opened Options
  import opened Validation

  /** `pad` and `tail` are the blanks around a token. A call without arguments can go without parentheses. */
  datatype Expr =
    | Numeral(pad: string, text: string, tail: string)
    | Quoted(pad: string, quote: char, content: string, tail: string)
    | Call(pad: string, name: string, tail: string, parens: bool, args: seq<Expr>)

  predicate Special(c: char) {
    c == '\\' || c == '(' || c == ',' || c == ')'
  }

  function Escape(s: string): string {
    if s == "" then "" else (if Special(s[0]) then ['\\', s[0]] else [s[0]]) + Escape(s[1..])
  }

  /** The token of an expression with the blanks around it. */
  function Token(e: Expr): string {
    match e
    case Numeral(pad, text, tail) => pad + (text + tail)
    case Quoted(pad, quote, content, tail) => pad + [quote] + (Escape(content) + ([quote] + tail))
    case Call(pad, name, tail, _, _) => pad + (name + tail)
  }

  function Print(e: Expr): string
    decreases e, 0
  {
    if e.Call? && e.parens then Token(e) + ("(" + PrintList(e.args) + ")") else Token(e)
  }

  function PrintList(es: seq<Expr>): string
    decreases es, 1
  {
    if es == [] then ""
    else if |es| == 1 then Print(es[0])
    else Print(es[0]) + ("," + PrintList(es[1..]))
  }

  predicate Blanks(s: string) {
    forall i :: 0 <= i < |s| ==> s[i] in {' ', '\t'}
  }

  predicate Plain(s: string) {
    forall i :: 0 <= i < |s| ==> !Special(s[i])
  }

  /** A token of its own: not empty, no special characters, no blanks at its ends. */
  predicate Solid(s: string) {
    s != "" && Plain(s) && s[0] !in {' ', '\t'} && s[|s| - 1] !in {' ', '\t'}
  }

  /** Without line ends: line feed, carriage return, and the separators of lines and paragraphs. */
  predicate OneLine(s: string) {
    forall i :: 0 <= i < |s| ==> s[i] !in {'\n', '\r', '\U{2028}', '\U{2029}'}
  }

  predicate InQuotes(s: string) {
    |s| >= 2 && s[0] in {'\'', '"'} && s[|s| - 1] == s[0] && OneLine(s[1..|s| - 1])
  }

  /** Quoted strings are no numbers, and names of types are neither numbers nor quoted. */
  ghost predicate Sensible(env: Env) {
    && (forall s :: InQuotes(s) ==> env.number(s) == None)
    && (forall name :: name in env.types ==> Solid(name) && env.number(name) == None && !InQuotes(name))
  }

  predicate Printable(env: Env, e: Expr)
    decreases e, 0
  {
    && Blanks(e.pad) && Blanks(e.tail)
    && match e
       case Numeral(_, text, _) => Solid(text) && env.number(text).Some?
       case Quoted(_, quote, content, _) =>
         quote in {'\'', '"'} && OneLine(content)
       case Call(_, name, _, parens, args) =>
         name in env.types && AllPrintable(env, args) && (args != [] ==> parens)
  }

  predicate AllPrintable(env: Env, es: seq<Expr>)
    decreases es, 1
  {
    es == [] || (Printable(env, es[0]) && AllPrintable(env, es[1..]))
  }

  function Flat(env: Env, e: Expr): seq<Slot>
    requires Printable(env, e)
    decreases e, 0
  {
    match e
    case Numeral(_, text, _) => [NumberSlot(env.number(text).value)]
    case Quoted(_, _, content, _) => [TextSlot(content)]
    case Call(_, name, _, _, args) => [FunctionSlot(name), ArgumentsSlot(FlatList(env, args))]
  }

  function FlatList(env: Env, es: seq<Expr>): seq<Slot>
    requires AllPrintable(env, es)
    decreases es, 1
  {
    if es == [] then [] else Flat(env, es[0]) + FlatList(env, es[1..])
  }

  // ----- labels

  lemma UnescapeChar(c: char, t: string)
    ensures c != '\\' ==> Unescape([c] + t) == [c] + Unescape(t)
    ensures !EndsLine(c) ==> Unescape(['\\', c] + t) == [c] + Unescape(t)
  {
    assert ([c] + t)[1..] == t && (['\\', c] + t)[2..] == t;
  }

  lemma {:induction false} UnescapePlain(s: string, t: string)
    requires Plain(s)
    ensures Unescape(s + t) == s + Unescape(t)
  {
    hide Unescape;
    if s == "" {
      assert s + t == t;
    } else {
      UnescapeChar(s[0], s[1..] + t);
      UnescapePlain(s[1..], t);
      assert s + t == [s[0]] + (s[1..] + t);
    }
  }

  lemma {:induction false} UnescapeEscape(s: string, t: string)
    requires OneLine(s)
    ensures Unescape(Escape(s) + t) == s + Unescape(t)
  {
    if s == "" {
      assert Escape(s) + t == t && s + Unescape(t) == Unescape(t);
    } else {
      hide Unescape, Escape;
      var rest := Escape(s[1..]) + t;
      EscapeCons(s);
      UnescapeChar(s[0], rest);
      UnescapeEscape(s[1..], t);
      Assoc(if Special(s[0]) then ['\\', s[0]] else [s[0]], Escape(s[1..]), t);
      Assoc([s[0]], s[1..], Unescape(t));
      assert s == [s[0]] + s[1..];
    }
  }

  lemma {:induction false} StripPad(pad: string, s: string)
    requires Blanks(pad) && s != "" && s[0] !in {' ', '\t'}
    ensures StripLeft(pad + s) == s
  {
    if pad == "" {
      assert pad + s == s;
    } else {
      assert (pad + s)[1..] == pad[1..] + s;
      StripPad(pad[1..], s);
    }
  }

  lemma {:induction false} StripTail(s: string, tail: string)
    requires Blanks(tail) && s != "" && s[|s| - 1] !in {' ', '\t'}
    ensures StripRight(s + tail) == s
  {
    if tail == "" {
      assert s + tail == s;
    } else {
      assert (s + tail)[..|s + tail| - 1] == s + tail[..|tail| - 1];
      StripTail(s, tail[..|tail| - 1]);
    }
  }

  /** What a token stands for, without its blanks and escapes. */
  function Word(e: Expr): string {
    match e
    case Numeral(_, text, _) => text
    case Quoted(_, quote, content, _) => [quote] + (content + [quote])
    case Call(_, name, _, _, _) => name
  }

  lemma UnescapeAll(s: string)
    requires Plain(s)
    ensures Unescape(s) == s
  {
    UnescapePlain(s, "");
    assert s + "" == s;
  }

  lemma Assoc(a: string, b: string, c: string)
    ensures (a + b) + c == a + (b + c)
  {
  }

  lemma QuotedUnescaped(pad: string, q: string, content: string, tail: string)
    requires Plain(pad + q) && Plain(q + tail)
    requires OneLine(content)
    ensures Unescape((pad + q) + (Escape(content) + (q + tail))) == pad + ((q + (content + q)) + tail)
  {
    hide Unescape, Escape;
    UnescapePlain(pad + q, Escape(content) + (q + tail));
    UnescapeEscape(content, q + tail);
    UnescapeAll(q + tail);
    Assoc(pad, q, content + (q + tail));
    Assoc(content, q, tail);
    Assoc(q, content + q, tail);
  }

  lemma TokenUnescaped(env: Env, e: Expr)
    requires Sensible(env) && Printable(env, e)
    ensures Unescape(Token(e)) == e.pad + (Word(e) + e.tail)
  {
    hide Unescape;
    if e.Quoted? {
      QuotedUnescaped(e.pad, [e.quote], e.content, e.tail);
    } else {
      UnescapeAll(Token(e));
    }
  }

  lemma TokenWord(env: Env, e: Expr)
    requires Sensible(env) && Printable(env, e)
    ensures StripRight(StripLeft(Unescape(Token(e)))) == Word(e) != ""
  {
    hide Unescape, StripLeft, StripRight;
    TokenUnescaped(env, e);
    StripPad(e.pad, Word(e) + e.tail);
    StripTail(Word(e), e.tail);
  }

  /** A token pushes what it stands for; a call, so far, with no arguments. */
  function Pushed(env: Env, e: Expr): seq<Slot>
    requires Printable(env, e)
  {
    if e.Call? then [FunctionSlot(e.name), ArgumentsSlot([])] else Flat(env, e)
  }

  lemma NothingLeft()
    ensures StripRight(StripLeft(Unescape(""))) == ""
  {
  }

  lemma QuotesSeen(s: string)
    ensures IsQuoted(s) <==> InQuotes(s)
  {
    if |s| >= 2 {
      var inner := s[1..|s| - 1];
      assert forall i :: 1 <= i < |s| - 1 ==> s[i] == inner[i - 1];
      assert forall i :: 0 <= i < |inner| ==> inner[i] == s[i + 1];
    }
  }

  lemma TokenPushes(env: Env, e: Expr, stack: seq<Slot>)
    requires Sensible(env) && Printable(env, e)
    ensures Token(e) != "" && PushIfAny(env, Token(e), stack) == Ok(stack + Pushed(env, e))
  {
    hide Unescape, StripLeft, StripRight, Escape, Token;
    TokenWord(env, e);
    NothingLeft();
    var w := Word(e);
    QuotesSeen(w);
    if e.Quoted? {
      assert w[1..|w| - 1] == e.content;
    }
  }

  // ----- scanning over text that is only collected

  lemma {:induction false} ScanPlain(env: Env, s: string, rest: string, lab: string, depth: int, stack: seq<Slot>)
    requires Plain(s)
    ensures Scan(env, s + rest, lab, false, depth, stack) == Scan(env, rest, lab + s, false, depth, stack)
    decreases |s|
  {
    if s == "" {
      assert s + rest == rest && lab + s == lab;
    } else {
      assert (s + rest)[1..] == s[1..] + rest && lab + [s[0]] + s[1..] == lab + s;
      ScanPlain(env, s[1..], rest, lab + [s[0]], depth, stack);
    }
  }

  lemma ScanChar(env: Env, c: char, rest: string, lab: string, depth: int, stack: seq<Slot>)
    ensures !Special(c) ==>
              Scan(env, [c] + rest, lab, false, depth, stack) == Scan(env, rest, lab + [c], false, depth, stack)
    ensures Scan(env, ['\\', c] + rest, lab, false, depth, stack) == Scan(env, rest, lab + ['\\', c], false, depth, stack)
  {
    assert ([c] + rest)[1..] == rest;
    assert (['\\', c] + rest)[1..] == [c] + rest && ([c] + rest)[1..] == rest;
    assert lab + ['\\'] + [c] == lab + ['\\', c];
  }

  lemma EscapeCons(s: string)
    requires s != ""
    ensures Escape(s) == (if Special(s[0]) then ['\\', s[0]] else [s[0]]) + Escape(s[1..])
  {
  }

  lemma {:induction false} ScanEscaped(env: Env, s: string, rest: string, lab: string, depth: int, stack: seq<Slot>)
    ensures Scan(env, Escape(s) + rest, lab, false, depth, stack) == Scan(env, rest, lab + Escape(s), false, depth, stack)
    decreases |s|
  {
    if s == "" {
      assert Escape(s) + rest == rest && lab + Escape(s) == lab;
    } else {
      hide Scan, Escape, Special;
      EscapeCons(s);
      var first := if Special(s[0]) then ['\\', s[0]] else [s[0]];
      Assoc(first, Escape(s[1..]), rest);
      Assoc(lab, first, Escape(s[1..]));
      ScanChar(env, s[0], Escape(s[1..]) + rest, lab, depth, stack);
      ScanEscaped(env, s[1..], rest, lab + first, depth, stack);
    }
  }

  lemma ScanToken(env: Env, e: Expr, rest: string, lab: string, depth: int, stack: seq<Slot>)
    requires Sensible(env) && Printable(env, e)
    ensures Scan(env, Token(e) + rest, lab, false, depth, stack) == Scan(env, rest, lab + Token(e), false, depth, stack)
  {
    hide Scan;
    if e.Quoted? {
      var opening, closing := e.pad + [e.quote], [e.quote] + e.tail;
      var esc := Escape(e.content);
      Assoc(opening, esc + closing, rest);
      Assoc(esc, closing, rest);
      Assoc(lab, opening, esc + closing);
      Assoc(lab + opening, esc, closing);
      ScanPlain(env, opening, esc + (closing + rest), lab, depth, stack);
      ScanEscaped(env, e.content, closing + rest, lab + opening, depth, stack);
      ScanPlain(env, closing, rest, lab + opening + esc, depth, stack);
    } else {
      ScanPlain(env, Token(e), rest, lab, depth, stack);
    }
  }

  /** Inside parentheses a whole expression is only collected. */
  lemma {:induction false} ScanInside(env: Env, e: Expr, rest: string, lab: string, depth: int, stack: seq<Slot>)
    requires Sensible(env) && Printable(env, e) && depth >= 1
    ensures Scan(env, Print(e) + rest, lab, false, depth, stack) == Scan(env, rest, lab + Print(e), false, depth, stack)
    decreases e, 0
  {
    hide Scan, Token, PrintList;
    if e.Call? && e.parens {
      var t, args := Token(e), PrintList(e.args);
      CallText(t, args, rest);
      CallCollected(lab, t, args);
      ScanToken(env, e, "(" + (args + (")" + rest)), lab, depth, stack);
      ScanOpen(env, args + (")" + rest), lab + t, depth, stack);
      ScanListInside(env, e.args, ")" + rest, lab + t + "(", depth + 1, stack);
      ScanClose(env, rest, lab + t + "(" + args, depth + 1, stack);
    } else {
      ScanToken(env, e, rest, lab, depth, stack);
    }
  }

  lemma CallText(t: string, args: string, rest: string)
    ensures t + ("(" + args + ")") + rest == t + ("(" + (args + (")" + rest)))
  {
    Assoc(t, "(" + args + ")", rest);
    Assoc("(" + args, ")", rest);
    Assoc("(", args, ")" + rest);
  }

  lemma CallCollected(lab: string, t: string, args: string)
    ensures lab + (t + ("(" + args + ")")) == lab + t + "(" + args + ")"
  {
    Assoc(lab, t, "(" + args + ")");
    Assoc(lab + t, "(" + args, ")");
    Assoc(lab + t, "(", args);
  }

  lemma ScanOpen(env: Env, rest: string, lab: string, depth: int, stack: seq<Slot>)
    requires depth >= 1
    ensures Scan(env, "(" + rest, lab, false, depth, stack) == Scan(env, rest, lab + "(", false, depth + 1, stack)
    ensures Scan(env, "," + rest, lab, false, depth, stack) == Scan(env, rest, lab + ",", false, depth, stack)
  {
    assert ("(" + rest)[1..] == rest == ("," + rest)[1..];
  }

  lemma ScanClose(env: Env, rest: string, lab: string, depth: int, stack: seq<Slot>)
    requires depth >= 2
    ensures Scan(env, ")" + rest, lab, false, depth, stack) == Scan(env, rest, lab + ")", false, depth - 1, stack)
  {
    assert (")" + rest)[1..] == rest;
  }

  lemma {:induction false} ScanListInside(env: Env, es: seq<Expr>, rest: string, lab: string, depth: int, stack: seq<Slot>)
    requires Sensible(env) && AllPrintable(env, es) && depth >= 1
    ensures Scan(env, PrintList(es) + rest, lab, false, depth, stack) == Scan(env, rest, lab + PrintList(es), false, depth, stack)
    decreases es, 1
  {
    hide Scan, Token, Print;
    if es == [] {
      assert PrintList(es) + rest == rest && lab + PrintList(es) == lab;
    } else if |es| == 1 {
      ScanInside(env, es[0], rest, lab, depth, stack);
    } else {
      var first, others := Print(es[0]), PrintList(es[1..]);
      Assoc(first, "," + others, rest);
      Assoc(",", others, rest);
      Assoc(lab, first, "," + others);
      Assoc(lab + first, ",", others);
      ScanInside(env, es[0], "," + (others + rest), lab, depth, stack);
      ScanOpen(env, others + rest, lab + first, depth, stack);
      ScanListInside(env, es[1..], rest, lab + first + ",", depth, stack);
    }
  }

  // ----- the round trip

  /** What is left to be pushed when a whole expression has been read at the top. */
  function Leftover(e: Expr): string {
    if e.Call? && e.parens then "" else Token(e)
  }

  /** A separator at the top pushes what has been collected. */
  lemma ScanSeparator(env: Env, rest: string, lab: string, stack: seq<Slot>)
    ensures PushIfAny(env, lab, stack).Ok? ==>
              && Scan(env, "(" + rest, lab, false, 0, stack) == Scan(env, rest, "", false, 1, PushIfAny(env, lab, stack).value)
              && Scan(env, "," + rest, lab, false, 0, stack) == Scan(env, rest, "", false, 0, PushIfAny(env, lab, stack).value)
              && Scan(env, "", lab, false, 0, stack) == PushIfAny(env, lab, stack)
  {
    hide PushIfAny;
    assert ("(" + rest)[1..] == rest == ("," + rest)[1..];
  }

  /** The last closing parenthesis compiles what has been collected. */
  lemma ScanReturn(env: Env, rest: string, lab: string, stack: seq<Slot>)
    ensures Close(env, lab, stack).Ok? ==>
              Scan(env, ")" + rest, lab, false, 1, stack) == Scan(env, rest, "", false, 0, Close(env, lab, stack).value)
  {
    hide Close;
    assert (")" + rest)[1..] == rest;
  }

  /** Reading an expression at the top and then pushing what is left gives it flattened. */
  lemma {:induction false} ScanTop(env: Env, e: Expr, rest: string, stack: seq<Slot>) returns (stack': seq<Slot>)
    requires Sensible(env) && Printable(env, e)
    ensures Scan(env, Print(e) + rest, "", false, 0, stack) == Scan(env, rest, Leftover(e), false, 0, stack')
    ensures PushIfAny(env, Leftover(e), stack') == Ok(stack + Flat(env, e))
    decreases e, 0
  {
    hide Push, Scan, Token, PrintList;
    TokenPushes(env, e, stack);
    assert "" + Token(e) == Token(e);
    if e.Call? && e.parens {
      var t, args := Token(e), PrintList(e.args);
      var called := stack + Pushed(env, e);
      CallText(t, args, rest);
      ScanToken(env, e, "(" + (args + (")" + rest)), "", 0, stack);
      ScanSeparator(env, args + (")" + rest), t, stack);
      ScanListInside(env, e.args, ")" + rest, "", 1, called);
      assert "" + args == args;
      CompileList(env, e.args);
      stack' := stack + Flat(env, e);
      assert called[|called| - 1 := ArgumentsSlot(FlatList(env, e.args))] == stack';
      ScanReturn(env, rest, args, called);
    } else {
      ScanToken(env, e, rest, "", 0, stack);
      stack' := stack;
      if e.Call? {
        assert FlatList(env, e.args) == [];
      }
    }
  }

  lemma {:induction false} ScanTopList(env: Env, es: seq<Expr>, stack: seq<Slot>)
    requires Sensible(env) && AllPrintable(env, es)
    ensures Scan(env, PrintList(es), "", false, 0, stack) == Ok(stack + FlatList(env, es))
    decreases es, 1
  {
    hide Push, Scan, PushIfAny, Print, Flat, PrintList, FlatList, Leftover, Sensible, Printable;
    if es == [] {
      NothingInText(env, stack);
    } else {
      var after := if |es| == 1 then "" else "," + PrintList(es[1..]);
      ListInText(env, es, after);
      var stack' := ScanTop(env, es[0], after, stack);
      ScanSeparator(env, PrintList(es[1..]), Leftover(es[0]), stack');
      if |es| > 1 {
        var pushed := stack + Flat(env, es[0]);
        ScanTopList(env, es[1..], pushed);
        assert pushed + FlatList(env, es[1..]) == stack + FlatList(env, es);
      }
    }
  }

  lemma NothingInText(env: Env, stack: seq<Slot>)
    ensures Scan(env, PrintList([]), "", false, 0, stack) == Ok(stack + FlatList(env, []))
  {
    assert stack + [] == stack;
  }

  lemma ListInText(env: Env, es: seq<Expr>, after: string)
    requires AllPrintable(env, es) && es != [] && after == if |es| == 1 then "" else "," + PrintList(es[1..])
    ensures PrintList(es) == Print(es[0]) + after
    ensures FlatList(env, es) == Flat(env, es[0]) + FlatList(env, es[1..])
    ensures |es| == 1 ==> FlatList(env, es) == Flat(env, es[0])
  {
    hide Print, Flat;
    assert Print(es[0]) + "" == Print(es[0]);
    assert Flat(env, es[0]) + [] == Flat(env, es[0]);
  }

  /** Compiling what was written gives the expressions back, flattened. */
  lemma {:induction false} CompileList(env: Env, es: seq<Expr>)
    requires Sensible(env) && AllPrintable(env, es)
    ensures Compile(env, PrintList(es)) == Ok(FlatList(env, es))
    decreases es, 2
  {
    ScanTopList(env, es, []);
    assert [] + FlatList(env, es) == FlatList(env, es);
  }

  // ----- what is refused

  /** A word that is no number, is not in quotes and names no type is refused where it ends. */
  lemma UnknownRefused(env: Env, pad: string, word: string, tail: string, rest: string)
    requires Blanks(pad) && Blanks(tail) && Solid(word)
    requires env.number(word) == None && !InQuotes(word) && word !in env.types
    ensures var text := pad + (word + tail);
            Compile(env, text) == Compile(env, text + ("," + rest)) == Compile(env, text + ("(" + rest)) == SyntaxError
  {
    hide Unescape, StripLeft, StripRight, Scan;
    var text := pad + (word + tail);
    UnescapeAll(text);
    StripPad(pad, word + tail);
    StripTail(word, tail);
    QuotesSeen(word);
    assert PushIfAny(env, text, []) == SyntaxError;
    assert text + "" == text == "" + text;
    ScanPlain(env, text, "", "", 0, []);
    ScanPlain(env, text, "," + rest, "", 0, []);
    ScanPlain(env, text, "(" + rest, "", 0, []);
    SeparatorRefuses(env, rest, text, []);
  }

  lemma SeparatorRefuses(env: Env, rest: string, lab: string, stack: seq<Slot>)
    requires PushIfAny(env, lab, stack) == SyntaxError
    ensures Scan(env, "(" + rest, lab, false, 0, stack) == SyntaxError
    ensures Scan(env, "," + rest, lab, false, 0, stack) == SyntaxError
    ensures Scan(env, "", lab, false, 0, stack) == SyntaxError
  {
    hide PushIfAny;
    assert ("(" + rest)[0] == '(' && ("," + rest)[0] == ',';
  }

  /** Arguments after a number or a quoted text are refused. */
  lemma ArgumentsRefused(env: Env, e: Expr, es: seq<Expr>, rest: string)
    requires Sensible(env) && Printable(env, e) && !e.Call? && AllPrintable(env, es)
    ensures Compile(env, Token(e) + ("(" + (PrintList(es) + (")" + rest)))) == SyntaxError
  {
    hide Push, Scan, Token, PrintList, PushIfAny;
    var t, args := Token(e), PrintList(es);
    TokenPushes(env, e, []);
    ScanToken(env, e, "(" + (args + (")" + rest)), "", 0, []);
    assert "" + t == t && "" + args == args && [] + Pushed(env, e) == Flat(env, e);
    ScanSeparator(env, args + (")" + rest), t, []);
    ScanListInside(env, es, ")" + rest, "", 1, Flat(env, e));
    ReturnRefuses(env, rest, args, Flat(env, e));
  }

  lemma ReturnRefuses(env: Env, rest: string, lab: string, stack: seq<Slot>)
    requires |stack| == 1
    ensures Scan(env, ")" + rest, lab, false, 1, stack) == SyntaxError
  {
    assert (")" + rest)[0] == ')';
  }
}
