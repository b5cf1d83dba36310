/**
 The combinators or, and, neg and list of luci2-base/htdocs/luci2/cbi.js on a compiled
 stack, against the meaning of the expression it was compiled from.
 */
module ValidationEval {
  import opened Options
  import opened Validation
  import opened ValidationPrint

  /** Matching a value that has no tokens throws. */
  datatype Verdict = Accepts | Rejects | Throws

  /** The validators without sub-validators, and how a literal compares with a value. Both are left open. */
  datatype Rules = Rules(leaf: (string, seq<Slot>, string) -> bool, equal: (Slot, string) -> bool)

  function Judge(b: bool): Verdict {
    if b then Accepts else Rejects
  }

  // ----- the strings that neg and list look at

  /** The value without a leading exclamation mark and the blanks around it. */
  function StripBang(v: string): string {
    var s := StripLeft(v);
    if s != "" && s[0] == '!' then StripLeft(s[1..]) else v
  }

  /** The longest blank-free beginning. */
  function WordLength(v: string): (n: nat)
    ensures n <= |v|
  {
    if v == "" || IsBlank(v[0]) then 0 else 1 + WordLength(v[1..])
  }

  /** The maximal stretches without blanks. */
  function Tokens(v: string): (ts: seq<string>)
    decreases |v|
  {
    if v == "" then []
    else if IsBlank(v[0]) then Tokens(v[1..])
    else [v[..WordLength(v)]] + Tokens(v[WordLength(v)..])
  }

  // ----- what they are

  /** A token: not empty, no blanks in it. */
  predicate Entry(w: string) {
    w != "" && forall i :: 0 <= i < |w| ==> w[i] !in {' ', '\t'}
  }

  /** Blanks before, between and after. */
  predicate Gaps(gaps: seq<string>) {
    forall k :: 0 <= k < |gaps| ==> Blanks(gaps[k]) && (0 < k < |gaps| - 1 ==> gaps[k] != "")
  }

  function Spaced(gaps: seq<string>, words: seq<string>): string
    requires |gaps| == |words| + 1
  {
    if words == [] then gaps[0] else gaps[0] + (words[0] + Spaced(gaps[1..], words[1..]))
  }

  lemma {:induction false} WordAt(w: string, t: string)
    requires Entry(w) && (t != "" ==> t[0] in {' ', '\t'})
    ensures WordLength(w + t) == |w|
    decreases |w|
  {
    assert (w + t)[1..] == w[1..] + t;
    if |w| > 1 {
      WordAt(w[1..], t);
    } else {
      assert w[1..] + t == t;
    }
  }

  lemma {:induction false} BlanksSkipped(pad: string, t: string)
    requires Blanks(pad)
    ensures Tokens(pad + t) == Tokens(t)
    decreases |pad|
  {
    if pad == "" {
      assert pad + t == t;
    } else {
      assert (pad + t)[1..] == pad[1..] + t;
      BlanksSkipped(pad[1..], t);
    }
  }

  /** Tokens with blanks between them come back. */
  lemma {:induction false} TokensSpaced(gaps: seq<string>, words: seq<string>)
    requires |gaps| == |words| + 1 && Gaps(gaps) && forall k :: 0 <= k < |words| ==> Entry(words[k])
    ensures Tokens(Spaced(gaps, words)) == words
    decreases |words|
  {
    hide Tokens, Spaced;
    SpacedFirst(gaps, words);
    if words == [] {
      BlanksSkipped(gaps[0], "");
      assert gaps[0] + "" == gaps[0];
      NoTokens();
    } else {
      var w, rest := words[0], Spaced(gaps[1..], words[1..]);
      SpacedFirst(gaps[1..], words[1..]);
      assert gaps[1] == gaps[1..][0];
      TokensSpaced(gaps[1..], words[1..]);
      BlanksSkipped(gaps[0], w + rest);
      TokenFirst(w, rest);
      assert words == [w] + words[1..];
    }
  }

  lemma SpacedFirst(gaps: seq<string>, words: seq<string>)
    requires |gaps| == |words| + 1
    ensures words == [] ==> Spaced(gaps, words) == gaps[0]
    ensures words != [] ==> Spaced(gaps, words) == gaps[0] + (words[0] + Spaced(gaps[1..], words[1..]))
    ensures gaps[0] != "" ==> Spaced(gaps, words) != "" && Spaced(gaps, words)[0] == gaps[0][0]
  {
  }

  lemma NoTokens()
    ensures Tokens("") == []
  {
  }

  lemma TokenFirst(w: string, rest: string)
    requires Entry(w) && (rest != "" ==> rest[0] in {' ', '\t'})
    ensures Tokens(w + rest) == [w] + Tokens(rest)
  {
    WordAt(w, rest);
    assert (w + rest)[..|w|] == w && (w + rest)[|w|..] == rest;
  }

  /** A maximal stretch without blanks. */
  predicate Stretch(v: string, i: int, j: int) {
    && 0 <= i < j <= |v| && Entry(v[i..j])
    && (i > 0 ==> v[i - 1] in {' ', '\t'})
    && (j < |v| ==> v[j] in {' ', '\t'})
  }

  ghost predicate StretchAt(v: string, t: string) {
    exists i, j :: Stretch(v, i, j) && v[i..j] == t
  }

  /** Behind a part that ends or goes on with a blank, the stretches are those of the rest. */
  lemma StretchBehind(v: string, n: nat, i: int, j: int)
    requires 0 < n <= |v| && (v[n - 1] in {' ', '\t'} || (n < |v| ==> v[n] in {' ', '\t'}))
    ensures n <= i ==> (Stretch(v, i, j) <==> Stretch(v[n..], i - n, j - n))
    ensures Stretch(v[n..], i - n, j - n) ==> v[i..j] == v[n..][i - n..j - n]
  {
    if n <= i < j <= |v| {
      assert v[i..j] == v[n..][i - n..j - n];
    }
  }

  lemma WordEnds(v: string)
    ensures var n := WordLength(v);
            && (forall i :: 0 <= i < n ==> v[i] !in {' ', '\t'})
            && (n < |v| ==> v[n] in {' ', '\t'})
  {
    if v != "" && !IsBlank(v[0]) {
      WordEnds(v[1..]);
      var n := WordLength(v[1..]);
      assert forall i :: 1 <= i < n + 1 ==> v[i] == v[1..][i - 1];
    }
  }

  lemma BehindBlank(v: string, t: string)
    requires v != "" && v[0] in {' ', '\t'}
    ensures StretchAt(v, t) <==> StretchAt(v[1..], t)
  {
    StretchesBehind(v, 1, t);
    if StretchAt(v, t) {
      var i, j :| Stretch(v, i, j) && v[i..j] == t;
      assert v[i..j][0] == v[i];
      StretchBehind(v, 1, i, j);
    }
  }

  lemma BehindWord(v: string, n: nat, t: string)
    requires 0 < n <= |v| && Entry(v[..n]) && (n < |v| ==> v[n] in {' ', '\t'})
    ensures StretchAt(v, t) <==> t == v[..n] || StretchAt(v[n..], t)
  {
    StretchesBehind(v, n, t);
    assert v[0..n] == v[..n] && Stretch(v, 0, n);
    if StretchAt(v, t) {
      var i, j :| Stretch(v, i, j) && v[i..j] == t;
      StretchBehind(v, n, i, j);
      if n > i {
        assert forall k :: 0 <= k < n ==> v[k] == v[..n][k];
        FirstStretch(v, n, i, j);
      }
    }
  }

  lemma StretchesBehind(v: string, n: nat, t: string)
    requires 0 < n <= |v| && (v[n - 1] in {' ', '\t'} || (n < |v| ==> v[n] in {' ', '\t'}))
    ensures StretchAt(v[n..], t) ==> StretchAt(v, t)
  {
    if StretchAt(v[n..], t) {
      var i, j :| Stretch(v[n..], i, j) && v[n..][i..j] == t;
      StretchBehind(v, n, i + n, j + n);
      assert Stretch(v, i + n, j + n) && v[i + n..j + n] == t;
    }
  }

  /** The tokens are exactly the stretches. */
  lemma {:induction false} TokensAreStretches(v: string, t: string)
    ensures t in Tokens(v) <==> StretchAt(v, t)
    decreases |v|
  {
    hide StretchAt;
    if v == "" {
      NoStretch(t);
    } else if IsBlank(v[0]) {
      BehindBlank(v, t);
      TokensAreStretches(v[1..], t);
    } else {
      var n := WordLength(v);
      WordEnds(v);
      BehindWord(v, n, t);
      TokensAreStretches(v[n..], t);
    }
  }

  lemma NoStretch(t: string)
    ensures !StretchAt("", t)
  {
  }

  lemma FirstStretch(v: string, n: nat, i: int, j: int)
    requires Stretch(v, i, j) && i < n <= |v|
    requires (forall k :: 0 <= k < n ==> v[k] !in {' ', '\t'}) && (n < |v| ==> v[n] in {' ', '\t'})
    ensures i == 0 && j == n && v[i..j] == v[..n]
  {
    assert v[i..j][0] == v[i];
    assert forall k :: i <= k < j ==> v[i..j][k - i] == v[k];
  }

  /** An exclamation mark goes, with the blanks before and after it. */
  lemma BangStripped(pad: string, gap: string, w: string)
    requires Blanks(pad) && Blanks(gap) && (w != "" ==> w[0] !in {' ', '\t'})
    ensures StripBang(pad + ("!" + (gap + w))) == w
  {
    hide StripLeft;
    StripPad(pad, "!" + (gap + w));
    assert ("!" + (gap + w))[1..] == gap + w;
    if w != "" {
      StripPad(gap, w);
    } else {
      AllBlank(gap);
      assert gap + w == gap;
    }
  }

  lemma AllBlank(gap: string)
    requires Blanks(gap)
    ensures StripLeft(gap) == ""
  {
  }

  /** A value that does not start with one stays as it is. */
  lemma {:induction false} NoBang(v: string)
    requires forall n :: 0 <= n < |v| && Blanks(v[..n]) ==> v[n] != '!'
    ensures StripBang(v) == v
  {
    var n := Padding(v);
    if n < |v| {
      assert v == v[..n] + v[n..];
      StripPad(v[..n], v[n..]);
      assert v[n] != '!';
    } else {
      assert v[..n] == v;
      AllBlank(v);
    }
  }

  /** The length of the blanks at the beginning. */
  function Padding(v: string): (n: nat)
    ensures n <= |v| && Blanks(v[..n]) && (n < |v| ==> v[n] !in {' ', '\t'})
  {
    if v == "" || v[0] !in {' ', '\t'} then 0
    else
      var n := Padding(v[1..]);
      assert v[..n + 1] == [v[0]] + v[1..][..n];
      n + 1
  }

  // ----- running the stack

  function Apply(rules: Rules, name: string, args: seq<Slot>, v: string): Verdict
    requires Shaped(args)
    decreases args, 2
  {
    if name == "or" then Or(rules, args, v)
    else if name == "and" then And(rules, args, v)
    else if name == "neg" then Or(rules, args, StripBang(v))
    else if name == "list" then
      if args == [] || !args[0].FunctionSlot? then Rejects
      else if Tokens(v) == [] then Throws
      else Every(rules, args[0].name, args[1].args, Tokens(v))
    else Judge(rules.leaf(name, args, v))
  }

  /** One step is one slot for a literal and two for a function. */
  function Or(rules: Rules, args: seq<Slot>, v: string): Verdict
    requires Shaped(args)
    decreases args, 1
  {
    if args == [] then Rejects
    else if args[0].FunctionSlot? then
      match Apply(rules, args[0].name, args[1].args, v)
      case Rejects => Or(rules, args[2..], v)
      case other => other
    else if rules.equal(args[0], v) then Accepts
    else Or(rules, args[1..], v)
  }

  function And(rules: Rules, args: seq<Slot>, v: string): Verdict
    requires Shaped(args)
    decreases args, 1
  {
    if args == [] then Accepts
    else if args[0].FunctionSlot? then
      match Apply(rules, args[0].name, args[1].args, v)
      case Accepts => And(rules, args[2..], v)
      case other => other
    else if !rules.equal(args[0], v) then Rejects
    else And(rules, args[1..], v)
  }

  function Every(rules: Rules, name: string, args: seq<Slot>, tokens: seq<string>): Verdict
    requires Shaped(args)
    decreases args, 3, |tokens|
  {
    if tokens == [] then Accepts
    else
      match Apply(rules, name, args, tokens[0])
      case Accepts => Every(rules, name, args, tokens[1..])
      case other => other
  }

  lemma {:induction false} EveryIs(rules: Rules, name: string, args: seq<Slot>, tokens: seq<string>)
    requires Shaped(args)
    ensures Every(rules, name, args, tokens) == Accepts <==> forall t :: t in tokens ==> Apply(rules, name, args, t) == Accepts
    ensures Every(rules, name, args, tokens) == Throws ==> exists t :: t in tokens && Apply(rules, name, args, t) == Throws
    decreases |tokens|
  {
    hide Apply;
    if tokens != [] {
      EveryIs(rules, name, args, tokens[1..]);
      assert tokens[0] in tokens && forall t :: t in tokens ==> t == tokens[0] || t in tokens[1..];
      assert forall t :: t in tokens[1..] ==> t in tokens;
    }
  }

  /** `list` accepts if and only if there is a stretch and its validator accepts every one, and if the validator
      itself never throws, `list` throws if and only if there is none. Without a validator it rejects. */
  lemma ListAccepts(rules: Rules, args: seq<Slot>, v: string)
    requires Shaped(args)
    ensures args == [] || !args[0].FunctionSlot? ==> Apply(rules, "list", args, v) == Rejects
    ensures args != [] && args[0].FunctionSlot? ==>
              var sub, subargs, r := args[0].name, args[1].args, Apply(rules, "list", args, v);
              && (r == Accepts <==>
                    && (exists i, j :: Stretch(v, i, j))
                    && (forall i, j :: Stretch(v, i, j) ==> Apply(rules, sub, subargs, v[i..j]) == Accepts))
              && ((forall i, j :: Stretch(v, i, j) ==> Apply(rules, sub, subargs, v[i..j]) != Throws) ==>
                    (r == Throws <==> forall i, j :: !Stretch(v, i, j)))
  {
    if args != [] && args[0].FunctionSlot? {
      hide Every, Tokens, Stretch;
      var sub, subargs, tokens := args[0].name, args[1].args, Tokens(v);
      assert Apply(rules, "list", args, v) == if tokens == [] then Throws else Every(rules, sub, subargs, tokens);
      EveryIs(rules, sub, subargs, tokens);
      StretchesAreTokens(v);
      hide Apply;
      if tokens != [] {
        assert tokens[0] in tokens;
      }
    }
  }

  lemma StretchesAreTokens(v: string)
    ensures forall i, j :: Stretch(v, i, j) ==> v[i..j] in Tokens(v)
    ensures forall t :: t in Tokens(v) ==> exists i, j :: Stretch(v, i, j) && v[i..j] == t
  {
    forall t
      ensures t in Tokens(v) <==> StretchAt(v, t)
    {
      TokensAreStretches(v, t);
    }
  }

  lemma ShapedRest(a: seq<Slot>, i: nat)
    requires i < |a| && Shaped(a[i..])
    ensures a[i].FunctionSlot? ==>
              i + 1 < |a| && a[i + 1].ArgumentsSlot? && Shaped(a[i + 1].args) && Shaped(a[i + 2..])
    ensures !a[i].FunctionSlot? ==> Shaped(a[i + 1..])
  {
    assert a[i..][0] == a[i] && a[i..][1..] == a[i + 1..];
    if a[i].FunctionSlot? {
      assert a[i..][1] == a[i + 1] && a[i..][2..] == a[i + 2..];
    }
  }

  method RunOr(rules: Rules, args: seq<Slot>, v: string) returns (r: Verdict)
    requires Shaped(args)
    ensures r == Or(rules, args, v)
    decreases args, 1
  {
    var i := 0;
    while i < |args|
      invariant 0 <= i <= |args| && Shaped(args[i..])
      invariant Or(rules, args[i..], v) == Or(rules, args, v)
      decreases |args| - i
    {
      ShapedRest(args, i);
      assert args[i..][0] == args[i] && args[i..][1..] == args[i + 1..];
      if !args[i].FunctionSlot? {
        if rules.equal(args[i], v) { return Accepts; }
        i := i - 1;
      } else {
        assert args[i..][2..] == args[i + 2..];
        var verdict := RunApply(rules, args[i].name, args[i + 1].args, v);
        if verdict != Rejects { return verdict; }
      }
      i := i + 2;
    }
    assert args[i..] == [];
    r := Rejects;
  }

  method RunAnd(rules: Rules, args: seq<Slot>, v: string) returns (r: Verdict)
    requires Shaped(args)
    ensures r == And(rules, args, v)
    decreases args, 1
  {
    var i := 0;
    while i < |args|
      invariant 0 <= i <= |args| && Shaped(args[i..])
      invariant And(rules, args[i..], v) == And(rules, args, v)
      decreases |args| - i
    {
      ShapedRest(args, i);
      assert args[i..][0] == args[i] && args[i..][1..] == args[i + 1..];
      if !args[i].FunctionSlot? {
        if !rules.equal(args[i], v) { return Rejects; }
        i := i - 1;
      } else {
        assert args[i..][2..] == args[i + 2..];
        var verdict := RunApply(rules, args[i].name, args[i + 1].args, v);
        if verdict != Accepts { return verdict; }
      }
      i := i + 2;
    }
    assert args[i..] == [];
    r := Accepts;
  }

  method RunList(rules: Rules, args: seq<Slot>, v: string) returns (r: Verdict)
    requires Shaped(args)
    ensures r == Apply(rules, "list", args, v)
    decreases args, 1
  {
    if args == [] || !args[0].FunctionSlot? { return Rejects; }
    var tokens := Tokens(v);
    if tokens == [] { return Throws; }
    for i := 0 to |tokens|
      invariant Every(rules, args[0].name, args[1].args, tokens[i..]) == Every(rules, args[0].name, args[1].args, tokens)
    {
      assert tokens[i..][0] == tokens[i] && tokens[i..][1..] == tokens[i + 1..];
      var verdict := RunApply(rules, args[0].name, args[1].args, tokens[i]);
      if verdict != Accepts { return verdict; }
    }
    assert tokens[|tokens|..] == [];
    r := Accepts;
  }

  method RunApply(rules: Rules, name: string, args: seq<Slot>, v: string) returns (r: Verdict)
    requires Shaped(args)
    ensures r == Apply(rules, name, args, v)
    decreases args, 2
  {
    if name == "or" {
      r := RunOr(rules, args, v);
    } else if name == "and" {
      r := RunAnd(rules, args, v);
    } else if name == "neg" {
      r := RunOr(rules, args, StripBang(v));
    } else if name == "list" {
      r := RunList(rules, args, v);
    } else {
      r := Judge(rules.leaf(name, args, v));
    }
  }

  // ----- what expressions mean

  /** The first verdict that is not `skip`, if there is one. */
  function First(vs: seq<Verdict>, skip: Verdict): Verdict {
    if vs == [] then skip else if vs[0] != skip then vs[0] else First(vs[1..], skip)
  }

  /** One expression: a literal accepts what it equals, a call what the type accepts. */
  function Meaning(env: Env, rules: Rules, e: Expr, v: string): Verdict
    requires Printable(env, e)
    decreases e, 0
  {
    match e
    case Call(_, name, _, _, args) =>
      if name == "or" then First(Meanings(env, rules, args, v), Rejects)
      else if name == "and" then First(Meanings(env, rules, args, v), Accepts)
      else if name == "neg" then First(Meanings(env, rules, args, StripBang(v)), Rejects)
      else if name == "list" then
        if args == [] || !args[0].Call? then Rejects
        else if Tokens(v) == [] then Throws
        else First(OnTokens(env, rules, args, Tokens(v)), Accepts)
      else Judge(rules.leaf(name, FlatList(env, args), v))
    case _ => Judge(rules.equal(Flat(env, e)[0], v))
  }

  function Meanings(env: Env, rules: Rules, es: seq<Expr>, v: string): seq<Verdict>
    requires AllPrintable(env, es)
    decreases es, 1
  {
    if es == [] then [] else [Meaning(env, rules, es[0], v)] + Meanings(env, rules, es[1..], v)
  }

  /** The meaning of the first expression for each token. */
  function OnTokens(env: Env, rules: Rules, es: seq<Expr>, tokens: seq<string>): seq<Verdict>
    requires AllPrintable(env, es) && es != []
    decreases es, 1, |tokens|
  {
    if tokens == [] then []
    else [Meaning(env, rules, es[0], tokens[0])] + OnTokens(env, rules, es, tokens[1..])
  }

  /** Without exceptions `or` is exists and `and` is for all. */
  lemma {:induction false} FirstIs(vs: seq<Verdict>)
    requires Throws !in vs
    ensures First(vs, Rejects) == Judge(exists k :: 0 <= k < |vs| && vs[k] == Accepts)
    ensures First(vs, Accepts) == Judge(forall k :: 0 <= k < |vs| ==> vs[k] == Accepts)
    decreases |vs|
  {
    if vs != [] {
      FirstIs(vs[1..]);
      assert vs == [vs[0]] + vs[1..];
      assert forall k :: 1 <= k < |vs| ==> vs[k] == vs[1..][k - 1];
      assert forall k :: 0 <= k < |vs| - 1 ==> vs[1..][k] == vs[k + 1];
    }
  }

  /** In general the verdict is that of the first expression that settles the matter. */
  lemma {:induction false} FirstSettles(vs: seq<Verdict>, skip: Verdict)
    ensures First(vs, skip) == skip <==> forall k :: 0 <= k < |vs| ==> vs[k] == skip
    ensures First(vs, skip) != skip ==>
              exists k :: 0 <= k < |vs| && vs[k] == First(vs, skip) && forall j :: 0 <= j < k ==> vs[j] == skip
    decreases |vs|
  {
    if vs != [] {
      FirstSettles(vs[1..], skip);
      assert forall k :: 0 <= k < |vs| - 1 ==> vs[1..][k] == vs[k + 1];
      if vs[0] == skip && First(vs[1..], skip) != skip {
        var k :| 0 <= k < |vs| - 1 && vs[1..][k] == First(vs, skip) && forall j :: 0 <= j < k ==> vs[1..][j] == skip;
        assert vs[k + 1] == First(vs, skip);
        assert forall j :: 1 <= j < k + 1 ==> vs[j] == vs[1..][j - 1];
      }
    }
  }

  // ----- the stack means what the expression means

  lemma {:induction false} FlatShaped(env: Env, es: seq<Expr>)
    requires AllPrintable(env, es)
    ensures Shaped(FlatList(env, es))
    decreases es
  {
    if es != [] {
      var e := es[0];
      if e.Call? {
        FlatShaped(env, e.args);
      }
      assert Shaped(Flat(env, e)) by {
        assert Flat(env, e)[|Flat(env, e)|..] == [];
      }
      FlatShaped(env, es[1..]);
      ShapedConcat(Flat(env, e), FlatList(env, es[1..]));
    }
  }

  /** The first expression takes the first slot or the first two. */
  lemma FlatFirst(env: Env, es: seq<Expr>)
    requires AllPrintable(env, es) && es != []
    ensures var e, flat := es[0], FlatList(env, es);
            if e.Call? then
              && AllPrintable(env, e.args) && |flat| >= 2
              && flat[0] == FunctionSlot(e.name) && flat[1] == ArgumentsSlot(FlatList(env, e.args))
              && flat[2..] == FlatList(env, es[1..])
            else
              && |flat| >= 1 && |Flat(env, e)| == 1 && !flat[0].FunctionSlot?
              && flat[0] == Flat(env, e)[0] && flat[1..] == FlatList(env, es[1..])
  {
    var e := es[0];
    assert Printable(env, e);
    assert FlatList(env, es) == Flat(env, e) + FlatList(env, es[1..]);
  }

  /** A call on its flattened arguments. */
  lemma {:induction false} ApplyMeans(env: Env, rules: Rules, e: Expr, v: string)
    requires Printable(env, e) && e.Call?
    ensures Shaped(FlatList(env, e.args))
    ensures Apply(rules, e.name, FlatList(env, e.args), v) == Meaning(env, rules, e, v)
    decreases e, 0
  {
    FlatShaped(env, e.args);
    if e.name == "or" {
      OrMeans(env, rules, e.args, v);
    } else if e.name == "and" {
      AndMeans(env, rules, e.args, v);
    } else if e.name == "neg" {
      OrMeans(env, rules, e.args, StripBang(v));
    } else if e.name == "list" && e.args != [] {
      FlatFirst(env, e.args);
      if e.args[0].Call? {
        EveryMeans(env, rules, e.args, Tokens(v));
      }
    }
  }

  lemma {:induction false} EveryMeans(env: Env, rules: Rules, es: seq<Expr>, tokens: seq<string>)
    requires AllPrintable(env, es) && es != [] && es[0].Call? && AllPrintable(env, es[0].args)
    ensures Shaped(FlatList(env, es[0].args))
    ensures Every(rules, es[0].name, FlatList(env, es[0].args), tokens) == First(OnTokens(env, rules, es, tokens), Accepts)
    decreases es, 1, |tokens|
  {
    FlatShaped(env, es[0].args);
    if tokens != [] {
      ApplyMeans(env, rules, es[0], tokens[0]);
      EveryMeans(env, rules, es, tokens[1..]);
      var vs := OnTokens(env, rules, es, tokens);
      assert vs[1..] == OnTokens(env, rules, es, tokens[1..]);
    }
  }

  lemma {:induction false} OrMeans(env: Env, rules: Rules, es: seq<Expr>, v: string)
    requires AllPrintable(env, es)
    ensures Shaped(FlatList(env, es))
    ensures Or(rules, FlatList(env, es), v) == First(Meanings(env, rules, es, v), Rejects)
    decreases es, 1
  {
    FlatShaped(env, es);
    if es != [] {
      FlatFirst(env, es);
      if es[0].Call? {
        ApplyMeans(env, rules, es[0], v);
      }
      OrMeans(env, rules, es[1..], v);
      assert Meanings(env, rules, es, v)[1..] == Meanings(env, rules, es[1..], v);
    }
  }

  lemma {:induction false} AndMeans(env: Env, rules: Rules, es: seq<Expr>, v: string)
    requires AllPrintable(env, es)
    ensures Shaped(FlatList(env, es))
    ensures And(rules, FlatList(env, es), v) == First(Meanings(env, rules, es, v), Accepts)
    decreases es, 1
  {
    FlatShaped(env, es);
    if es != [] {
      FlatFirst(env, es);
      if es[0].Call? {
        ApplyMeans(env, rules, es[0], v);
      }
      AndMeans(env, rules, es[1..], v);
      assert Meanings(env, rules, es, v)[1..] == Meanings(env, rules, es[1..], v);
    }
  }

  /** Writing a call, compiling the text and running the stack gives what the call means. */
  lemma CompiledMeans(env: Env, rules: Rules, e: Expr, v: string)
    requires Sensible(env) && Printable(env, e) && e.Call?
    ensures var r := Compile(env, Print(e));
            && r == Ok([FunctionSlot(e.name), ArgumentsSlot(FlatList(env, e.args))])
            && Shaped(r.value[1].args)
            && Apply(rules, r.value[0].name, r.value[1].args, v) == Meaning(env, rules, e, v)
  {
    CompileList(env, [e]);
    assert [e][1..] == [];
    assert FlatList(env, [e]) == Flat(env, e);
    ApplyMeans(env, rules, e, v);
  }
}
