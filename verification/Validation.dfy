/**
 The compiler of datatype expressions of luci2-base/htdocs/luci2/cbi.js, which turns
 text such as or("auto",range(32,64)) into a stack of functions, argument arrays and
 literals.

 `Scan` says what the rest of the text does to the word collected so far, the nesting
 depth and the stack. Method `CompileText` is the loop with its positions.
 */
module Validation {
  import opened Options

  datatype Result<+T> = Ok(value: T) | SyntaxError

  /** What is on the stack: a function is followed by the array of its arguments. */
  datatype Slot =
    | NumberSlot(n: real)
    | TextSlot(text: string)
    | FunctionSlot(name: string)
    | ArgumentsSlot(args: seq<Slot>)

  /** Which labels are numbers and which are types. Both are left open. */
  datatype Env = Env(number: string -> Option<real>, types: set<string>)

  // ----- labels

  predicate IsBlank(c: char) {
    c == ' ' || c == '\t'
  }

  /** The characters a dot in a regular expression does not match. */
  predicate EndsLine(c: char) {
    c == '\n' || c == '\r' || c == '\U{2028}' || c == '\U{2029}'
  }

  /** A backslash goes, and the character after it stays. */
  function Unescape(s: string): string {
    if s == "" then ""
    else if s[0] == '\\' && |s| > 1 && !EndsLine(s[1]) then [s[1]] + Unescape(s[2..])
    else [s[0]] + Unescape(s[1..])
  }

  function StripLeft(s: string): string {
    if s != "" && IsBlank(s[0]) then StripLeft(s[1..]) else s
  }

  function StripRight(s: string): string {
    if s != "" && IsBlank(s[|s| - 1]) then StripRight(s[..|s| - 1]) else s
  }

  predicate IsQuote(c: char) {
    c == '\'' || c == '"'
  }

  predicate IsQuoted(s: string) {
    && |s| >= 2
    && IsQuote(s[0]) && s[|s| - 1] == s[0]
    && forall i :: 1 <= i < |s| - 1 ==> !EndsLine(s[i])
  }

  /** Push what a word stands for. */
  function Push(env: Env, lab: string, stack: seq<Slot>): Result<seq<Slot>> {
    var word := StripRight(StripLeft(Unescape(lab)));
    if word != "" && env.number(word).Some? then Ok(stack + [NumberSlot(env.number(word).value)])
    else if IsQuoted(word) then Ok(stack + [TextSlot(word[1..|word| - 1])])
    else if word in env.types then Ok(stack + [FunctionSlot(word), ArgumentsSlot([])])
    else SyntaxError
  }

  function PushIfAny(env: Env, lab: string, stack: seq<Slot>): Result<seq<Slot>> {
    if lab == "" then Ok(stack) else Push(env, lab, stack)
  }

  // ----- the text

  function Compile(env: Env, code: string): Result<seq<Slot>>
    decreases |code|, |code| + 1
  {
    Scan(env, code, "", false, 0, [])
  }

  /** The stack in the end, when `rest` is still to be read, `lab` has been collected since the last
      separator and `esc` tells whether the next character is escaped. The end of the text
      acts as a comma. */
  function Scan(env: Env, rest: string, lab: string, esc: bool, depth: int, stack: seq<Slot>): Result<seq<Slot>>
    decreases |lab| + |rest|, |rest|
  {
    if rest == "" then
      if esc || depth > 0 then Ok(stack) else PushIfAny(env, lab, stack)
    else
      var c, rest' := rest[0], rest[1..];
      if esc then Scan(env, rest', lab + [c], false, depth, stack)
      else if c == '\\' then Scan(env, rest', lab + [c], true, depth, stack)
      else if c == '(' || c == ',' then
        var depth' := if c == '(' then depth + 1 else depth;
        if depth > 0 then Scan(env, rest', lab + [c], false, depth', stack)
        else
          match PushIfAny(env, lab, stack)
          case SyntaxError => SyntaxError
          case Ok(stack') => Scan(env, rest', "", false, depth', stack')
      else if c == ')' then
        if depth - 1 > 0 then Scan(env, rest', lab + [c], false, depth - 1, stack)
        else
          match Close(env, lab, stack)
          case SyntaxError => SyntaxError
          case Ok(stack') => Scan(env, rest', "", false, depth - 1, stack')
      else Scan(env, rest', lab + [c], false, depth, stack)
  }

  /** The text between parentheses becomes the arguments of the function before them. */
  function Close(env: Env, lab: string, stack: seq<Slot>): Result<seq<Slot>>
    decreases |lab|, |lab| + 2
  {
    if |stack| < 2 || !stack[|stack| - 2].FunctionSlot? then SyntaxError
    else
      match Compile(env, lab)
      case SyntaxError => SyntaxError
      case Ok(args) => Ok(stack[|stack| - 1 := ArgumentsSlot(args)])
  }

  method CompileText(env: Env, text: string) returns (r: Result<seq<Slot>>)
    ensures r == Compile(env, text)
    decreases |text|
  {
    var pos, esc, depth := 0, false, 0;
    var stack: seq<Slot> := [];
    var code := text + ",";
    var i := 0;
    while i < |code|
      invariant 0 <= pos <= i <= |code|
      invariant i <= |text| ==> Scan(env, text[i..], text[pos..i], esc, depth, stack) == Compile(env, text)
      invariant i == |code| ==> Ok(stack) == Compile(env, text)
    {
      var c := code[i];
      ghost var rest, lab := if i < |text| then text[i..] else "", text[pos..i];
      assert code[pos..i] == lab;
      if i < |text| {
        assert rest[0] == c && rest[1..] == text[i + 1..];
        assert text[pos..i + 1] == lab + [c] && text[i + 1..i + 1] == "";
      }
      if esc {
        esc := false;
      } else if c == '\\' {
        esc := true;
      } else if c == '(' || c == ',' {
        if depth <= 0 {
          if pos < i {
            var pushed := PushLabel(env, code[pos..i], stack);
            if pushed.SyntaxError? { return SyntaxError; }
            stack := pushed.value;
          }
          pos := i + 1;
        }
        if c == '(' { depth := depth + 1; }
      } else if c == ')' {
        depth := depth - 1;
        if depth <= 0 {
          if |stack| < 2 || !stack[|stack| - 2].FunctionSlot? { return SyntaxError; }
          var args := CompileText(env, code[pos..i]);
          if args.SyntaxError? { return SyntaxError; }
          stack := stack[|stack| - 1 := ArgumentsSlot(args.value)];
          pos := i + 1;
        }
      }
      i := i + 1;
    }
    r := Ok(stack);
  }

  method PushLabel(env: Env, lab: string, stack: seq<Slot>) returns (r: Result<seq<Slot>>)
    requires lab != ""
    ensures r == PushIfAny(env, lab, stack)
  {
    var word := Unescape(lab);
    word := StripLeft(word);
    word := StripRight(word);
    if word != "" && env.number(word).Some? {
      r := Ok(stack + [NumberSlot(env.number(word).value)]);
    } else if IsQuoted(word) {
      r := Ok(stack + [TextSlot(word[1..|word| - 1])]);
    } else if word in env.types {
      r := Ok(stack + [FunctionSlot(word)] + [ArgumentsSlot([])]);
      assert stack + [FunctionSlot(word)] + [ArgumentsSlot([])] == stack + [FunctionSlot(word), ArgumentsSlot([])];
    } else {
      r := SyntaxError;
    }
  }

  // ----- the shape of the stack

  /** Functions are followed by their arguments, and arguments follow functions. */
  predicate Shaped(stack: seq<Slot>) {
    if stack == [] then true
    else
      match stack[0]
      case FunctionSlot(_) =>
        |stack| >= 2 && stack[1].ArgumentsSlot? && Shaped(stack[1].args) && Shaped(stack[2..])
      case ArgumentsSlot(_) => false
      case _ => Shaped(stack[1..])
  }

  lemma {:induction false} ShapedConcat(a: seq<Slot>, b: seq<Slot>)
    requires Shaped(a) && Shaped(b)
    ensures Shaped(a + b)
    decreases |a|
  {
    if a == [] {
      assert a + b == b;
    } else if a[0].FunctionSlot? {
      ShapedConcat(a[2..], b);
      assert (a + b)[2..] == a[2..] + b && (a + b)[1] == a[1] && (a + b)[0] == a[0];
    } else {
      ShapedConcat(a[1..], b);
      assert (a + b)[1..] == a[1..] + b;
    }
  }

  /** The arguments at the end can be exchanged for others. */
  lemma {:induction false} ShapedClose(a: seq<Slot>, args: seq<Slot>)
    requires Shaped(a) && Shaped(args)
    requires |a| >= 2 && a[|a| - 2].FunctionSlot?
    ensures Shaped(a[|a| - 1 := ArgumentsSlot(args)])
    decreases |a|
  {
    var b := a[|a| - 1 := ArgumentsSlot(args)];
    if |a| == 2 {
      assert b[2..] == [];
    } else if a[0].FunctionSlot? {
      assert |a| != 3;
      ShapedClose(a[2..], args);
      assert b[2..] == a[2..][|a[2..]| - 1 := ArgumentsSlot(args)];
    } else {
      ShapedClose(a[1..], args);
      assert b[1..] == a[1..][|a[1..]| - 1 := ArgumentsSlot(args)];
    }
  }

  /** Whatever is compiled has the shape that the validators rely on. */
  lemma {:induction false} CompileShaped(env: Env, code: string)
    ensures Compile(env, code).Ok? ==> Shaped(Compile(env, code).value)
    decreases |code|, |code| + 1
  {
    ScanShaped(env, code, "", false, 0, []);
  }

  lemma PushShaped(env: Env, lab: string, stack: seq<Slot>)
    requires Shaped(stack)
    ensures PushIfAny(env, lab, stack).Ok? ==> Shaped(PushIfAny(env, lab, stack).value)
  {
    if lab != "" && Push(env, lab, stack).Ok? {
      var pushed := Push(env, lab, stack).value[|stack|..];
      assert Push(env, lab, stack).value == stack + pushed;
      assert Shaped(pushed) by {
        if |pushed| == 2 {
          assert pushed[2..] == [];
        } else {
          assert pushed[1..] == [];
        }
      }
      ShapedConcat(stack, pushed);
    }
  }

  lemma {:induction false} ScanShaped(env: Env, rest: string, lab: string, esc: bool, depth: int, stack: seq<Slot>)
    requires Shaped(stack)
    ensures var r := Scan(env, rest, lab, esc, depth, stack); r.Ok? ==> Shaped(r.value)
    decreases |lab| + |rest|, |rest|
  {
    hide Push, Shaped;
    PushShaped(env, lab, stack);
    if rest != "" {
      var c, rest' := rest[0], rest[1..];
      if esc || c == '\\' || (c != '(' && c != ',' && c != ')') {
        ScanShaped(env, rest', lab + [c], !esc && c == '\\', depth, stack);
      } else if c != ')' {
        var depth' := if c == '(' then depth + 1 else depth;
        if depth > 0 {
          ScanShaped(env, rest', lab + [c], false, depth', stack);
        } else if PushIfAny(env, lab, stack).Ok? {
          ScanShaped(env, rest', "", false, depth', PushIfAny(env, lab, stack).value);
        }
      } else if depth - 1 > 0 {
        ScanShaped(env, rest', lab + [c], false, depth - 1, stack);
      } else if Close(env, lab, stack).Ok? {
        CompileShaped(env, lab);
        ShapedClose(stack, Compile(env, lab).value);
        ScanShaped(env, rest', "", false, depth - 1, Close(env, lab, stack).value);
      }
    }
  }
}
