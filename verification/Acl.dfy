/**
 The access lists of luci2-base/htdocs/luci2/view/system.users.js: a list of allowing
 patterns and of denying ones, which start with an exclamation mark.
 */
module Acl {
  import opened Options
  import opened Words

  /** strGlob: an asterisk stands for anything within a line, any other character for itself. */
  predicate Glob(pattern: string, s: string) {
    if pattern == "" then s == ""
    else if pattern[0] == '*' then
      exists k :: 0 <= k <= |s| && (forall i :: 0 <= i < k ==> !LineEnd(s[i])) && Glob(pattern[1..], s[k..])
    else s != "" && s[0] == pattern[0] && Glob(pattern[1..], s[1..])
  }

  /** What follows a leading exclamation mark, if there is one. */
  function Denied(entry: string): Option<string> {
    var s := SkipSpace(entry);
    if s != "" && s[0] == '!' then Some(SkipSpace(s[1..])) else None
  }

  predicate Denies(entry: string, group: string) {
    Denied(entry).Some? && Glob(Denied(entry).value, group)
  }

  predicate Allows(entry: string, group: string) {
    Denied(entry).None? && Glob(entry, group)
  }

  /** A group is granted if something allows it and nothing denies it, in whatever order. */
  predicate Granted(list: seq<string>, group: string) {
    && (exists e :: e in list && Allows(e, group))
    && !exists e :: e in list && Denies(e, group)
  }

  method AclMatch(list: seq<string>, group: string) returns (r: bool)
    ensures r == Granted(list, group)
  {
    hide Glob, Denied;
    for i := 0 to |list|
      invariant forall j :: 0 <= j < i ==> !Denies(list[j], group)
    {
      var x := Denied(list[i]);
      if x.None? { continue; }
      if Glob(x.value, group) {
        assert Denies(list[i], group);
        return false;
      }
    }
    for i := 0 to |list|
      invariant forall j :: 0 <= j < i ==> !Allows(list[j], group)
    {
      var x := Denied(list[i]);
      if x.Some? { continue; }
      if Glob(list[i], group) {
        assert Allows(list[i], group);
        return true;
      }
    }
    r := false;
  }

  function Filter(choices: seq<string>, keep: string -> bool): seq<string> {
    if choices == [] then []
    else
      var c := choices[|choices| - 1];
      Filter(choices[..|choices| - 1], keep) + if keep(c) then [c] else []
  }

  /** The value of the option: one string, a list, or nothing. */
  datatype Value = Text(text: string) | List(list: seq<string>) | Nothing

  function Entries(value: Value): seq<string> {
    match value
    case Text(text) => Split(text)
    case List(list) => list
    case Nothing => []
  }

  function FromUCI(choices: seq<string>, value: Value): seq<string> {
    Filter(choices, c => Granted(Entries(value), c))
  }

  method AclFromUCI(choices: seq<string>, value: Value) returns (rv: seq<string>)
    ensures rv == FromUCI(choices, value)
  {
    hide Granted;
    var list := Entries(value);
    rv := [];
    for i := 0 to |choices|
      invariant rv == FromUCI(choices[..i], value)
    {
      assert choices[..i + 1][..i] == choices[..i];
      var granted := AclMatch(list, choices[i]);
      if granted {
        rv := rv + [choices[i]];
      }
    }
    assert choices[..|choices|] == choices;
  }

  function Negated(names: seq<string>): (r: seq<string>)
    ensures |r| == |names|
    ensures forall i :: 0 <= i < |names| ==> r[i] == "!" + names[i]
  {
    seq(|names|, i requires 0 <= i < |names| => "!" + names[i])
  }

  function ToUCI(choices: seq<string>, list: seq<string>): seq<string> {
    if 2 * |list| < |choices| then list else ["*"] + Negated(Filter(choices, c => c !in list))
  }

  method AclToUCI(choices: seq<string>, list: seq<string>) returns (rv: seq<string>)
    ensures rv == ToUCI(choices, list)
  {
    if 2 * |list| < |choices| {
      return list;
    }
    var chosen: set<string> := {};
    for i := 0 to |list|
      invariant forall c :: c in chosen <==> c in list[..i]
    {
      chosen := chosen + {list[i]};
    }
    rv := ["*"];
    for i := 0 to |choices|
      invariant rv == ["*"] + Negated(Filter(choices[..i], c => c !in list))
    {
      assert choices[..i + 1][..i] == choices[..i];
      if choices[i] !in chosen {
        rv := rv + ["!" + choices[i]];
      }
    }
    assert choices[..|choices|] == choices;
  }

  // ----- the round trip

  /** A name that stands for itself, alone and after an exclamation mark. */
  predicate Plain(name: string) {
    && (forall i :: 0 <= i < |name| ==> name[i] != '*' && !LineEnd(name[i]))
    && (name != "" ==> name[0] != '!' && !Space(name[0]))
  }

  lemma {:induction false} PlainGlob(name: string, s: string)
    requires forall i :: 0 <= i < |name| ==> name[i] != '*'
    ensures Glob(name, s) <==> s == name
  {
    if name != "" && s != "" {
      PlainGlob(name[1..], s[1..]);
      assert name == [name[0]] + name[1..] && s == [s[0]] + s[1..];
    }
  }

  lemma {:induction false} StarGlob(s: string)
    requires forall i :: 0 <= i < |s| ==> !LineEnd(s[i])
    ensures Glob("*", s)
  {
    assert Glob("", s[|s|..]);
  }

  lemma PlainEntry(name: string, group: string)
    requires Plain(name) && Plain(group)
    ensures Allows(name, group) <==> group == name
    ensures !Denies(name, group)
    ensures Denies("!" + name, group) <==> group == name
    ensures !Allows("!" + name, group)
    ensures Allows("*", group) && !Denies("*", group)
  {
    hide Glob;
    PlainGlob(name, group);
    StarGlob(group);
    assert SkipSpace(name) == name;
    var negated := "!" + name;
    assert SkipSpace(negated) == negated && negated[1..] == name;
  }

  lemma {:induction false} FilterSame(choices: seq<string>, f: string -> bool, g: string -> bool)
    requires forall c :: c in choices ==> f(c) == g(c)
    ensures Filter(choices, f) == Filter(choices, g)
  {
    if choices != [] {
      FilterSame(choices[..|choices| - 1], f, g);
    }
  }

  lemma {:induction false} FilterHolds(choices: seq<string>, f: string -> bool)
    ensures forall c :: c in Filter(choices, f) <==> c in choices && f(c)
  {
    if choices != [] {
      FilterHolds(choices[..|choices| - 1], f);
      assert choices == choices[..|choices| - 1] + [choices[|choices| - 1]];
    }
  }

  /** Either form of the list grants exactly the names in it. */
  lemma GrantsList(choices: seq<string>, list: seq<string>, c: string)
    requires forall x :: x in choices || x in list ==> Plain(x)
    requires c in choices
    ensures Granted(ToUCI(choices, list), c) <==> c in list
  {
    hide Plain, Denies, Allows, Filter;
    var entries := ToUCI(choices, list);
    PlainEntry(c, c);
    if 2 * |list| < |choices| {
      forall e | e in entries
        ensures !Denies(e, c) && (Allows(e, c) <==> e == c)
      {
        PlainEntry(e, c);
      }
    } else {
      var others := Filter(choices, x => x !in list);
      FilterHolds(choices, x => x !in list);
      forall i | 0 <= i < |others|
        ensures Denies(entries[1 + i], c) <==> others[i] == c
        ensures !Allows(entries[1 + i], c)
      {
        PlainEntry(others[i], c);
      }
      assert entries[0] == "*";
      if c !in list {
        var i :| 0 <= i < |others| && others[i] == c;
        assert Denies(entries[1 + i], c);
      }
    }
  }

  /** What is read back from a stored list are the choices that were in it. */
  lemma {:induction false} RoundTrip(choices: seq<string>, list: seq<string>)
    requires forall x :: x in choices || x in list ==> Plain(x)
    ensures FromUCI(choices, List(ToUCI(choices, list))) == Filter(choices, c => c in list)
  {
    hide Plain, Granted, ToUCI, Filter;
    var stored := ToUCI(choices, list);
    forall c | c in choices
      ensures Granted(stored, c) == (c in list)
    {
      GrantsList(choices, list, c);
    }
    FilterSame(choices, c => Granted(stored, c), c => c in list);
    assert Entries(List(stored)) == stored;
  }

  /** What is left of the choices when some are taken out. */
  predicate Subsequence(list: seq<string>, choices: seq<string>) {
    || list == []
    || (choices != [] && Subsequence(list, choices[..|choices| - 1]))
    || (choices != [] && list[|list| - 1] == choices[|choices| - 1]
        && Subsequence(list[..|list| - 1], choices[..|choices| - 1]))
  }

  predicate Distinct(choices: seq<string>) {
    forall i, j :: 0 <= i < j < |choices| ==> choices[i] != choices[j]
  }

  lemma {:induction false} FilterIsSubsequence(choices: seq<string>, f: string -> bool)
    ensures Subsequence(Filter(choices, f), choices)
  {
    if choices != [] {
      FilterIsSubsequence(choices[..|choices| - 1], f);
      var rest, c := Filter(choices[..|choices| - 1], f), choices[|choices| - 1];
      if f(c) {
        assert (rest + [c])[..|rest|] == rest;
      } else {
        assert rest + [] == rest;
      }
    }
  }

  lemma {:induction false} SubsequenceNames(list: seq<string>, choices: seq<string>)
    requires Subsequence(list, choices)
    ensures forall c :: c in list ==> c in choices
  {
    if list != [] {
      var front, before := list[..|list| - 1], choices[..|choices| - 1];
      assert list == front + [list[|list| - 1]] && choices == before + [choices[|choices| - 1]];
      if Subsequence(list, before) {
        SubsequenceNames(list, before);
      } else {
        SubsequenceNames(front, before);
      }
    }
  }

  lemma {:induction false} SubsequenceIsFilter(list: seq<string>, choices: seq<string>)
    requires Distinct(choices) && Subsequence(list, choices)
    ensures Filter(choices, c => c in list) == list
    decreases |choices|
  {
    if choices != [] {
      var before, last := choices[..|choices| - 1], choices[|choices| - 1];
      assert choices == before + [last] && last !in before;
      if Subsequence(list, before) {
        SubsequenceIsFilter(list, before);
        SubsequenceNames(list, before);
      } else {
        var front := list[..|list| - 1];
        assert list == front + [last];
        SubsequenceIsFilter(front, before);
        FilterSame(before, c => c in list, c => c in front);
      }
    }
  }

  /** The choices come back as they were exactly if the list is one of them in their order. */
  lemma {:induction false} RoundTripExact(choices: seq<string>, list: seq<string>)
    requires Distinct(choices) && forall x :: x in choices || x in list ==> Plain(x)
    ensures FromUCI(choices, List(ToUCI(choices, list))) == list <==> Subsequence(list, choices)
  {
    hide Plain, FromUCI, ToUCI, Subsequence;
    RoundTrip(choices, list);
    FilterIsSubsequence(choices, c => c in list);
    if Subsequence(list, choices) {
      SubsequenceIsFilter(list, choices);
    }
  }

  lemma {:induction false} FilterLengths(choices: seq<string>, list: seq<string>)
    ensures |Filter(choices, c => c in list)| + |Filter(choices, c => c !in list)| == |choices|
  {
    if choices != [] {
      FilterLengths(choices[..|choices| - 1], list);
    }
  }

  /** The shorter form is stored. */
  lemma {:induction false} StoredLength(choices: seq<string>, list: seq<string>)
    requires Distinct(choices) && Subsequence(list, choices)
    ensures 2 * |ToUCI(choices, list)| <= |choices| + 2
  {
    SubsequenceIsFilter(list, choices);
    FilterLengths(choices, list);
  }

  /** The same through one text with a space between the entries. */
  lemma {:induction false} TextRoundTrip(choices: seq<string>, list: seq<string>)
    requires forall x :: x in choices || x in list ==> Plain(x) && Word(x)
    ensures FromUCI(choices, Text(Join(ToUCI(choices, list)))) == FromUCI(choices, List(ToUCI(choices, list)))
  {
    hide Plain, Filter, Granted, Split;
    var stored := ToUCI(choices, list);
    if stored == [] {
      FilterSame(choices, c => Granted(Split(""), c), c => Granted([], c)) by {
        NothingGranted(choices);
      }
    } else {
      FilterHolds(choices, c => c !in list);
      forall w | w in stored
        ensures Word(w)
      {
        var i :| 0 <= i < |stored| && stored[i] == w;
        if 2 * |list| >= |choices| && i > 0 {
          var name := Filter(choices, c => c !in list)[i - 1];
          assert w == "!" + name && Word(name);
        }
      }
      SplitJoin(stored);
    }
  }

  lemma NothingGranted(choices: seq<string>)
    requires forall x :: x in choices ==> Word(x)
    ensures forall c :: c in choices ==> !Granted(Split(""), c) && !Granted([], c)
  {
  }

  // ----- patterns and entries, written out

  function Concat(pieces: seq<string>): string {
    if pieces == [] then "" else pieces[0] + Concat(pieces[1..])
  }

  /** A piece for each character of the pattern: the character, or for an asterisk anything within a line. */
  predicate Pieces(pattern: string, pieces: seq<string>) {
    && |pieces| == |pattern|
    && forall i :: 0 <= i < |pattern| ==>
         if pattern[i] == '*' then forall j :: 0 <= j < |pieces[i]| ==> !LineEnd(pieces[i][j])
         else pieces[i] == [pattern[i]]
  }

  lemma {:induction false} PiecesMatch(pattern: string, pieces: seq<string>)
    requires Pieces(pattern, pieces)
    ensures Glob(pattern, Concat(pieces))
    decreases |pattern|
  {
    if pattern != "" {
      PiecesMatch(pattern[1..], pieces[1..]);
      var s, first := Concat(pieces), pieces[0];
      assert s[|first|..] == Concat(pieces[1..]);
      if pattern[0] == '*' {
        assert forall i :: 0 <= i < |first| ==> s[i] == first[i];
        assert Glob(pattern[1..], s[|first|..]);
      }
    }
  }

  lemma {:induction false} MatchInPieces(pattern: string, s: string) returns (pieces: seq<string>)
    requires Glob(pattern, s)
    ensures Pieces(pattern, pieces) && Concat(pieces) == s
    decreases |pattern|
  {
    if pattern == "" {
      pieces := [];
    } else {
      var k := 1;
      if pattern[0] == '*' {
        k :| 0 <= k <= |s| && (forall i :: 0 <= i < k ==> !LineEnd(s[i])) && Glob(pattern[1..], s[k..]);
      }
      var rest := MatchInPieces(pattern[1..], s[k..]);
      pieces := [s[..k]] + rest;
      assert s == s[..k] + s[k..] && pieces[1..] == rest;
    }
  }

  /** A pattern matches exactly the texts made of such pieces. */
  lemma GlobExactly(pattern: string, s: string)
    ensures Glob(pattern, s) <==> exists pieces :: Pieces(pattern, pieces) && Concat(pieces) == s
  {
    hide Glob, Pieces, Concat;
    if Glob(pattern, s) {
      var pieces := MatchInPieces(pattern, s);
    }
    forall pieces | Pieces(pattern, pieces) && Concat(pieces) == s
      ensures Glob(pattern, s)
    {
      PiecesMatch(pattern, pieces);
    }
  }

  /** An exclamation mark makes an entry deny what follows it, with or without space before and after the mark;
      without one an entry allows. */
  lemma DeniedExactly(entry: string, pattern: string)
    ensures Denied(entry) == Some(pattern) <==>
            exists pad, gap :: Spaces(pad) && Spaces(gap) && entry == pad + ("!" + (gap + pattern))
                               && (pattern != "" ==> !Space(pattern[0]))
  {
    hide SkipSpace, Space;
    forall pad: string, gap: string | Spaces(pad) && Spaces(gap) && entry == pad + ("!" + (gap + pattern))
                                      && (pattern != "" ==> !Space(pattern[0]))
      ensures Denied(entry) == Some(pattern)
    {
      NoMark();
      SpacesSkipped(pad, "!" + (gap + pattern));
      assert ("!" + (gap + pattern))[1..] == gap + pattern;
      SpacesSkipped(gap, pattern);
    }
    if Denied(entry) == Some(pattern) {
      var s := SkipSpace(entry);
      var pad, gap := Skipped(entry), Skipped(s[1..]);
      assert s == "!" + s[1..];
      assert entry == pad + ("!" + (gap + pattern));
    }
  }

  lemma NoMark()
    ensures !Space('!')
  {
  }

  /** The space that is skipped. */
  function Skipped(s: string): (pad: string)
    ensures Spaces(pad) && s == pad + SkipSpace(s)
  {
    if s != "" && Space(s[0]) then
      assert s == [s[0]] + s[1..];
      [s[0]] + Skipped(s[1..])
    else ""
  }

  /** Without a value, or with an empty list, nothing is granted; a text is read as the words in it. */
  lemma EntriesRead(choices: seq<string>, words: seq<string>, gaps: seq<string>)
    requires |words| == |gaps| + 1
    requires forall k :: 0 <= k < |words| ==> NoSpace(words[k]) && (0 < k < |words| - 1 ==> words[k] != "")
    requires forall k :: 0 <= k < |gaps| ==> Spaces(gaps[k]) && gaps[k] != ""
    ensures FromUCI(choices, Nothing) == FromUCI(choices, List([])) == []
    ensures FromUCI(choices, Text(Spaced(words, gaps))) == FromUCI(choices, List(words))
  {
    hide Granted, Split, Filter;
    SplitSpaced(words, gaps);
    var none := FromUCI(choices, Nothing);
    assert none == [] || none[0] in none;
    FilterHolds(choices, c => Granted([], c));
    assert Entries(Nothing) == Entries(List([])) == [];
    EmptyGrants();
    assert Entries(Text(Spaced(words, gaps))) == words == Entries(List(words));
  }

  lemma EmptyGrants()
    ensures forall c :: !Granted([], c)
  {
  }
}
