/**
 Listing packages: the server of luci2-base/src/rpcd/luci2.c hands out windows of at
 most 100 lines, and the client of luci2-base/htdocs/luci2/view/system.software.js asks
 for one window after the other and joins them.
 */
module Opkg {
  import opened Options

  /** Name and version, and the description if there is one. */
  type Package = seq<string>

  datatype Reply = NoData | Listing(packages: seq<Package>, total: nat)

  // ----- one line

  predicate SeparatorAt(line: string, p: nat) {
    p + 3 <= |line| && line[p..p + 3] == " - "
  }

  /** The first separator from `p` on, or the end of the line. */
  function FindSeparator(line: string, p: nat): (q: nat)
    requires p <= |line|
    ensures p <= q <= |line|
    ensures q == |line| || (SeparatorAt(line, q) && q + 3 <= |line|)
    ensures forall k :: p <= k < q ==> !SeparatorAt(line, k)
    decreases |line| - p
  {
    if p == |line| || SeparatorAt(line, p) then p else FindSeparator(line, p + 1)
  }

  /** Name, version and description of a line, cut at its first two separators. */
  function ParseLine(line: string): Option<Package> {
    var p := FindSeparator(line, 0);
    if p == |line| then None
    else
      var q := FindSeparator(line, p + 3);
      if q == |line| then Some([line[..p], line[p + 3..]])
      else if q + 3 == |line| then Some([line[..p], line[p + 3..q]])
      else Some([line[..p], line[p + 3..q], line[q + 3..]])
  }

  /** The loop of opkg_parse_list over the characters of a line, with what is added after it. */
  method CutLine(line: string) returns (r: Option<Package>)
    ensures r == ParseLine(line)
  {
    hide SeparatorAt;
    ghost var p := FindSeparator(line, 0);
    var name: Option<string>, vers: Option<string>, desc: Option<string> := None, None, None;
    var ptr, last := 0, 0;
    while ptr <= |line| && vers.None?
      invariant name.None? ==> last == 0 && vers.None? && ptr <= |line| && FindSeparator(line, ptr) == p
      invariant name.Some? ==> name.value == line[..p]
      invariant name.Some? && p == |line| ==> ptr > |line| && vers.None?
      invariant name.Some? && p < |line| && vers.None? ==>
                  last == p + 3 <= ptr <= |line| && FindSeparator(line, last) == FindSeparator(line, ptr)
      invariant vers.Some? ==> name.Some? && p < |line| && vers.value == line[p + 3..FindSeparator(line, p + 3)]
      invariant vers.Some? ==>
                  var q := FindSeparator(line, p + 3);
                  desc == if q < |line| then Some(line[q + 3..]) else None
      decreases |line| + 3 - ptr, vers.None?
    {
      if ptr == |line| || SeparatorAt(line, ptr) {
        if name.None? {
          name := Some(line[last..ptr]);
          last := ptr + 3;
          ptr := ptr + 3;
        } else {
          vers := Some(line[last..ptr]);
          desc := if ptr < |line| then Some(line[ptr + 3..]) else None;
        }
      } else {
        ptr := ptr + 1;
      }
    }
    if name.Some? && vers.Some? {
      assert line[p + 3..|line|] == line[p + 3..];
      if desc.Some? && desc.value != "" {
        return Some([name.value, vers.value, desc.value]);
      }
      return Some([name.value, vers.value]);
    }
    r := None;
  }

  predicate DashAt(s: string, k: int) {
    0 <= k < |s| - 2 && s[k] == ' ' && s[k + 1] == '-' && s[k + 2] == ' '
  }

  predicate NoSeparator(s: string) {
    forall k :: 0 <= k < |s| ==> !DashAt(s, k)
  }

  /** With a separator after it, no separator begins before that one. */
  predicate Clean(s: string) {
    forall k :: 0 <= k < |s| ==> !DashAt(s + " - ", k)
  }

  lemma DashSeen(s: string, k: nat)
    ensures SeparatorAt(s, k) <==> DashAt(s, k)
  {
    if k + 3 <= |s| {
      assert s[k..k + 3] == [s[k], s[k + 1], s[k + 2]];
    }
  }

  lemma {:induction false} SeparatorFound(line: string, p: nat, q: nat)
    requires p <= q <= |line| && (q == |line| || SeparatorAt(line, q))
    requires forall k :: p <= k < q ==> !SeparatorAt(line, k)
    ensures FindSeparator(line, p) == q
    decreases |line| - p
  {
    if p < q {
      SeparatorFound(line, p + 1, q);
    }
  }

  lemma CleanBefore(before: string, s: string, rest: string)
    requires Clean(s)
    ensures var line := before + (s + (" - " + rest));
            && SeparatorAt(line, |before| + |s|)
            && forall k :: |before| <= k < |before| + |s| ==> !SeparatorAt(line, k)
  {
    var line := before + (s + (" - " + rest));
    assert line[|before| + |s|..|before| + |s| + 3] == " - ";
    forall k | |before| <= k < |before| + |s|
      ensures !SeparatorAt(line, k)
    {
      assert line[k..k + 3] == (s + " - ")[k - |before|..k - |before| + 3];
      DashSeen(s + " - ", k - |before|);
    }
  }

  lemma NothingBehind(before: string, s: string)
    requires NoSeparator(s)
    ensures forall k :: |before| <= k < |before| + |s| ==> !SeparatorAt(before + s, k)
  {
    forall k | |before| <= k < |before| + |s|
      ensures !SeparatorAt(before + s, k)
    {
      if k + 3 <= |before| + |s| {
        assert (before + s)[k..k + 3] == s[k - |before|..k - |before| + 3];
        DashSeen(s, k - |before|);
      }
    }
  }

  lemma VersionRead(name: string, vers: string)
    requires Clean(name) && NoSeparator(vers)
    ensures ParseLine(name + (" - " + vers)) == Some([name, vers])
  {
    hide FindSeparator, SeparatorAt;
    var line := name + (" - " + vers);
    CleanBefore("", name, vers);
    assert "" + line == line;
    SeparatorFound(line, 0, |name|);
    assert line == (name + " - ") + vers;
    NothingBehind(name + " - ", vers);
    SeparatorFound(line, |name| + 3, |line|);
    assert line[..|name|] == name && line[|name| + 3..] == vers;
  }

  lemma DescriptionRead(name: string, vers: string, desc: string)
    requires Clean(name) && Clean(vers)
    ensures ParseLine(name + (" - " + (vers + (" - " + desc)))) ==
            Some(if desc == "" then [name, vers] else [name, vers, desc])
  {
    hide FindSeparator, SeparatorAt;
    var rest := vers + (" - " + desc);
    var line := name + (" - " + rest);
    CleanBefore("", name, rest);
    assert "" + line == line;
    SeparatorFound(line, 0, |name|);
    assert line == (name + " - ") + rest;
    CleanBefore(name + " - ", vers, desc);
    var q := |name| + 3 + |vers|;
    SeparatorFound(line, |name| + 3, q);
    Cut(name, vers, desc);
  }

  lemma Cut(name: string, vers: string, desc: string)
    ensures var line, q := name + (" - " + (vers + (" - " + desc))), |name| + 3 + |vers|;
            |line| == q + 3 + |desc| && line[..|name|] == name && line[|name| + 3..q] == vers && line[q + 3..] == desc
  {
  }

  /** A line is a name, a version and perhaps a description, in this order; without a separator it is nothing,
      and an empty description is none. */
  lemma LineRead(name: string, vers: string, desc: string)
    ensures NoSeparator(name) ==> ParseLine(name) == None
    ensures Clean(name) && NoSeparator(vers) ==> ParseLine(name + (" - " + vers)) == Some([name, vers])
    ensures Clean(name) && Clean(vers) ==>
              ParseLine(name + (" - " + (vers + (" - " + desc)))) == Some(if desc == "" then [name, vers] else [name, vers, desc])
  {
    if NoSeparator(name) {
      NothingBehind("", name);
      assert "" + name == name;
      SeparatorFound(name, 0, |name|);
    }
    hide ParseLine, Clean, NoSeparator;
    if Clean(name) && NoSeparator(vers) {
      VersionRead(name, vers);
    }
    if Clean(name) && Clean(vers) {
      DescriptionRead(name, vers, desc);
    }
  }

  function Parsed(lines: seq<string>): seq<Package> {
    if lines == [] then []
    else
      var p := ParseLine(lines[|lines| - 1]);
      Parsed(lines[..|lines| - 1]) + if p.Some? then [p.value] else []
  }

  // ----- the server

  function Min(a: int, b: int): int {
    if a < b then a else b
  }

  /** The elements from `lo` up to `hi`, as far as there are any. */
  function Slice<T>(a: seq<T>, lo: nat, hi: nat): seq<T> {
    if lo >= |a| || hi <= lo then [] else a[lo..Min(hi, |a|)]
  }

  function WindowSize(limit: int): nat {
    if limit <= 0 || limit > 100 then 100 else limit
  }

  function Window(lines: seq<string>, offset: int, limit: int): Reply {
    var o := if offset < 0 then 0 else offset;
    var w := Slice(lines, o, o + WindowSize(limit));
    if w == [] then NoData else Listing(Parsed(w), |lines|)
  }

  /** struct opkg_state, with the array of packages that is being filled. */
  class OpkgState {
    var curOffset: nat
    var curCount: nat
    var reqOffset: nat
    var reqCount: nat
    var total: nat
    var isOpen: bool
    var packages: seq<Package>

    /** opkg_exec_list up to the command. */
    constructor (offset: int, limit: int)
      ensures curOffset == curCount == total == 0 && !isOpen && packages == []
      ensures reqOffset == (if offset < 0 then 0 else offset) && reqCount == WindowSize(limit)
      ensures 1 <= reqCount <= 100 && (1 <= limit <= 100 ==> reqCount == limit)
      ensures After([])
    {
      curOffset, curCount, total, isOpen, packages := 0, 0, 0, false, [];
      reqOffset := if offset < 0 then 0 else offset;
      reqCount := if limit <= 0 || limit > 100 then 100 else limit;
    }

    /** What has been counted and collected after the lines `done`. */
    ghost predicate After(done: seq<string>)
      reads this
    {
      && total == curOffset == |done|
      && curCount == (if |done| <= reqOffset then 0 else |done| - reqOffset)
      && packages == Parsed(Slice(done, reqOffset, reqOffset + reqCount))
      && (isOpen <==> Slice(done, reqOffset, reqOffset + reqCount) != [])
    }

    /** opkg_parse_list */
    method ParseList(line: string, ghost done: seq<string>)
      requires After(done) && reqCount > 0
      modifies this`total, this`curOffset, this`curCount, this`isOpen, this`packages
      ensures After(done + [line])
    {
      hide ParseLine, Parsed, Slice;
      total := total + 1;
      SliceSnoc(done, line, reqOffset, reqOffset + reqCount);
      ghost var window := Slice(done, reqOffset, reqOffset + reqCount);
      assert window + [] == window;
      var skip := curOffset < reqOffset;
      curOffset := curOffset + 1;
      if skip { return; }
      skip := curCount >= reqCount;
      curCount := curCount + 1;
      if skip { return; }
      isOpen := true;
      var p := CutLine(line);
      if p.Some? {
        packages := packages + [p.value];
      }
      ParsedSnoc(Slice(done, reqOffset, reqOffset + reqCount), line);
    }

    /** opkg_finish_list, after the lines `done`: the packages of the window, and how many lines there were. */
    method FinishList(ghost done: seq<string>) returns (r: Reply)
      requires After(done)
      ensures var window := Slice(done, reqOffset, reqOffset + reqCount);
              r == if window == [] then NoData else Listing(Parsed(window), |done|)
    {
      if !isOpen { return NoData; }
      r := Listing(packages, total);
    }
  }

  lemma ParsedSnoc(lines: seq<string>, line: string)
    ensures Parsed(lines + [line]) == Parsed(lines) + if ParseLine(line).Some? then [ParseLine(line).value] else []
  {
    assert (lines + [line])[..|lines|] == lines;
  }

  lemma SliceSnoc<T>(a: seq<T>, e: T, lo: nat, hi: nat)
    ensures Slice(a + [e], lo, hi) == Slice(a, lo, hi) + if lo <= |a| < hi then [e] else []
  {
  }

  lemma SliceNone<T>(lo: nat, hi: nat)
    ensures Slice<T>([], lo, hi) == []
    ensures Parsed([]) == []
  {
  }

  method List(lines: seq<string>, offset: int, limit: int) returns (r: Reply)
    ensures r == Window(lines, offset, limit)
  {
    hide Parsed, Slice;
    var s := new OpkgState(offset, limit);
    SliceNone<string>(s.reqOffset, s.reqOffset + s.reqCount);
    for i := 0 to |lines|
      invariant fresh(s) && s.After(lines[..i]) && s.reqCount > 0
      invariant s.reqOffset == (if offset < 0 then 0 else offset) && s.reqCount == WindowSize(limit)
    {
      s.ParseList(lines[i], lines[..i]);
      assert lines[..i + 1] == lines[..i] + [lines[i]];
    }
    assert lines[..|lines|] == lines;
    r := s.FinishList(lines);
  }

  // ----- the client

  /** How much is asked for from line `i` on when lines are wanted up to `limit`. */
  function PageSize(i: nat, limit: nat): (n: nat)
    ensures 1 <= n <= 100
  {
    if Min(i + 100, limit) % 100 == 0 then 100 else Min(i + 100, limit) % 100
  }

  function PackagesOf(r: Reply): seq<Package> {
    if r.NoData? then [] else r.packages
  }

  /** The pages from line `i` on, joined. */
  function Pages(lines: seq<string>, i: nat, limit: nat): seq<Package>
    decreases limit - i
  {
    if i >= limit then []
    else PackagesOf(Window(lines, i, PageSize(i, limit))) + Pages(lines, i + 100, limit)
  }

  /** The limit that counts: all lines, unless there is one. */
  function Wanted(limit: int, total: nat): nat {
    if limit <= 0 then total else limit
  }

  function Fetched(lines: seq<string>, offset: nat, limit: int): seq<Package> {
    var first := Window(lines, offset, limit);
    if first.NoData? then []
    else
      var wanted, got := Wanted(limit, first.total), first.packages;
      if |got| >= wanted then got else got + Pages(lines, offset + |got|, wanted)
  }

  method FetchPackages(lines: seq<string>, offset: nat, limit: int) returns (packages: seq<Package>)
    ensures packages == Fetched(lines, offset, limit)
  {
    hide Window, PageSize;
    packages := [];
    var list := List(lines, offset, limit);
    if list.NoData? { return; }
    packages := list.packages;
    var wanted: nat := if limit <= 0 then list.total else limit;
    if |packages| >= wanted { return; }
    var i := offset + |packages|;
    ghost var first, start := packages, i;
    hide Fetched;
    while i < wanted
      invariant first + Pages(lines, start, wanted) == packages + Pages(lines, i, wanted)
      decreases wanted - i
    {
      var page := List(lines, i, PageSize(i, wanted));
      ghost var before := packages;
      if page.Listing? {
        packages := packages + page.packages;
      }
      assert packages == before + PackagesOf(page);
      assert before + (PackagesOf(page) + Pages(lines, i + 100, wanted)) == packages + Pages(lines, i + 100, wanted);
      i := i + 100;
    }
  }

  // ----- what is fetched

  predicate WellFormed(lines: seq<string>) {
    forall i :: 0 <= i < |lines| ==> ParseLine(lines[i]).Some?
  }

  /** One listing of the lines that are asked for. */
  function Direct(lines: seq<string>, offset: nat, limit: int): seq<Package> {
    Parsed(Slice(lines, offset, offset + Wanted(limit, |lines|)))
  }

  /** When the pages leave no gap: the limit fits one window, the first window reaches the end,
      or the client, which takes the limit for the number of the last line, gets to the end of what is wanted. */
  predicate Gapless(offset: nat, limit: int, total: nat) {
    var wanted, next := Wanted(limit, total), offset + 100;
    var end := Min(offset + wanted, total);
    || 1 <= limit <= 100
    || total <= next
    || (next < wanted && if offset % 100 == 0 then end <= wanted else end <= next + PageSize(next, wanted))
  }

  lemma {:induction false} ParsedConcat(a: seq<string>, b: seq<string>)
    ensures Parsed(a + b) == Parsed(a) + Parsed(b)
    decreases |b|
  {
    if b == [] {
      assert a + b == a;
    } else {
      var b', line := b[..|b| - 1], b[|b| - 1];
      assert a + b == (a + b') + [line] && b == b' + [line];
      ParsedConcat(a, b');
      ParsedSnoc(a + b', line);
      ParsedSnoc(b', line);
    }
  }

  lemma {:induction false} ParsedLength(lines: seq<string>)
    requires WellFormed(lines)
    ensures |Parsed(lines)| == |lines|
    decreases |lines|
  {
    if lines != [] {
      assert lines == lines[..|lines| - 1] + [lines[|lines| - 1]];
      ParsedLength(lines[..|lines| - 1]);
    }
  }

  lemma SliceConcat<T>(a: seq<T>, lo: nat, mid: nat, hi: nat)
    requires lo <= mid <= hi
    ensures Slice(a, lo, hi) == Slice(a, lo, mid) + Slice(a, mid, hi)
  {
  }

  lemma SliceEmpty<T>(a: seq<T>, lo: nat, hi: nat)
    ensures Slice(a, lo, hi) == [] <==> lo >= |a| || hi <= lo
  {
  }

  lemma SameSlice<T>(a: seq<T>, lo: nat, hi: nat, hi': nat)
    requires Min(hi, |a|) == Min(hi', |a|)
    ensures Slice(a, lo, hi) == Slice(a, lo, hi')
  {
  }

  lemma SliceParsed(lines: seq<string>, lo: nat, hi: nat)
    requires WellFormed(lines)
    ensures |Parsed(Slice(lines, lo, hi))| == |Slice(lines, lo, hi)|
            == (if lo >= |lines| || hi <= lo then 0 else Min(hi, |lines|) - lo)
  {
    ParsedLength(Slice(lines, lo, hi));
  }

  lemma WindowPackages(lines: seq<string>, i: nat, limit: int)
    ensures PackagesOf(Window(lines, i, limit)) == Parsed(Slice(lines, i, i + WindowSize(limit)))
  {
  }

  lemma PageEnd(i: nat, limit: nat)
    requires i < limit
    ensures i % 100 == 0 ==> i + PageSize(i, limit) == Min(i + 100, limit)
  {
  }

  /** From a multiple of 100 on, the pages are the lines up to the limit. */
  lemma {:induction false} PagesJoin(lines: seq<string>, i: nat, limit: nat)
    requires i % 100 == 0
    ensures Pages(lines, i, limit) == Parsed(Slice(lines, i, limit))
    decreases limit - i
  {
    hide Parsed, PageSize, Window;
    if i < limit {
      var next := i + 100;
      PagesJoin(lines, next, limit);
      PageEnd(i, limit);
      WindowPackages(lines, i, PageSize(i, limit));
      PageJoins(lines, i, limit);
    } else {
      SliceNone<string>(0, 0);
    }
  }

  lemma PageJoins(lines: seq<string>, i: nat, limit: nat)
    requires i < limit
    ensures Parsed(Slice(lines, i, Min(i + 100, limit))) + Parsed(Slice(lines, i + 100, limit)) == Parsed(Slice(lines, i, limit))
  {
    hide Parsed;
    if i + 100 <= limit {
      SliceConcat(lines, i, i + 100, limit);
      ParsedConcat(Slice(lines, i, i + 100), Slice(lines, i + 100, limit));
    } else {
      SliceNone<string>(0, 0);
      assert Parsed(Slice(lines, i, limit)) + [] == Parsed(Slice(lines, i, limit));
    }
  }

  /** Lines beyond the last are on no page. */
  lemma {:induction false} PagesBeyond(lines: seq<string>, i: nat, limit: nat)
    requires i >= |lines|
    ensures Pages(lines, i, limit) == []
    decreases limit - i
  {
    if i < limit {
      PagesBeyond(lines, i + 100, limit);
      assert Slice(lines, i, i + WindowSize(PageSize(i, limit))) == [];
    }
  }

  function Length(lo: int, hi: int): nat {
    if hi < lo then 0 else hi - lo
  }

  /** A page of `n` lines and pages from 100 lines on, up to `end`. */
  lemma LengthSplit(i: nat, n: nat, end: nat, total: nat)
    requires n <= 100 && i + n <= end
    ensures var all := Length(i, Min(end, total));
            var joined := Length(i, Min(i + n, total)) + Length(i + 100, Min(end, total));
            joined <= all && (n < 100 && i + n < Min(end, total) ==> joined < all)
  {
  }

  /** With `i` on line `r` of a hundred, the pages hold no more than the lines up to `r + limit`. */
  lemma {:induction false} PagesBound(lines: seq<string>, i: nat, limit: nat)
    requires WellFormed(lines)
    ensures |Pages(lines, i, limit)| <= Length(i, Min(i % 100 + limit, |lines|))
    decreases limit - i
  {
    hide PageSize, Window, WellFormed, Parsed;
    if i < limit {
      PagesBound(lines, i + 100, limit);
      FirstPage(lines, i, limit);
      PageReach(i, limit);
      assert (i + 100) % 100 == i % 100;
      LengthSplit(i, PageSize(i, limit), i % 100 + limit, |lines|);
    }
  }

  lemma FirstPage(lines: seq<string>, i: nat, limit: nat)
    requires WellFormed(lines)
    ensures PackagesOf(Window(lines, i, PageSize(i, limit))) == Parsed(Slice(lines, i, i + PageSize(i, limit)))
    ensures |Parsed(Slice(lines, i, i + PageSize(i, limit)))| == Length(i, Min(i + PageSize(i, limit), |lines|))
  {
    hide PageSize, Window, Parsed, Slice, WellFormed, PackagesOf;
    WindowPackages(lines, i, PageSize(i, limit));
    SliceParsed(lines, i, i + PageSize(i, limit));
  }

  lemma PageReach(i: nat, limit: nat)
    requires i < limit
    ensures i + PageSize(i, limit) <= i % 100 + limit
  {
    var r, m := i % 100, i / 100;
    assert i == 100 * m + r;
    if i + 100 < limit {
    } else {
      var n := limit % 100;
      assert limit == 100 * (limit / 100) + n;
    }
  }

  /** The pages after a full first window are what is wanted after it, or fall short. */
  lemma PagesAfter(lines: seq<string>, offset: nat, limit: int)
    requires WellFormed(lines) && !(1 <= limit <= 100) && offset + 100 < |lines|
    ensures var wanted, next := Wanted(limit, |lines|), offset + 100;
            Pages(lines, next, wanted) == Parsed(Slice(lines, next, offset + wanted)) <==> Gapless(offset, limit, |lines|)
  {
    hide Parsed, WellFormed, Pages, PageSize;
    var wanted, next := Wanted(limit, |lines|), offset + 100;
    SliceParsed(lines, next, offset + wanted);
    if next >= wanted {
      NoPages(lines, next, wanted);
    } else if offset % 100 == 0 {
      PagesJoin(lines, next, wanted);
      SliceParsed(lines, next, wanted);
      if Min(offset + wanted, |lines|) <= wanted {
        SameSlice(lines, next, wanted, offset + wanted);
      }
    } else {
      PagesUneven(lines, offset, wanted);
    }
  }

  lemma NoPages(lines: seq<string>, i: nat, limit: nat)
    requires i >= limit
    ensures Pages(lines, i, limit) == []
  {
  }

  lemma PagesUneven(lines: seq<string>, offset: nat, wanted: nat)
    requires WellFormed(lines) && offset % 100 != 0 && offset + 100 < wanted && offset + 100 < |lines|
    ensures var next := offset + 100;
            Pages(lines, next, wanted) == Parsed(Slice(lines, next, offset + wanted))
            <==> Min(offset + wanted, |lines|) <= next + PageSize(next, wanted)
  {
    hide Parsed, WellFormed, PageSize, Slice;
    var next := offset + 100;
    var n, end := PageSize(next, wanted), Min(offset + wanted, |lines|);
    FirstPage(lines, next, wanted);
    PageReach(next, wanted);
    assert next % 100 == offset % 100 == (next + 100) % 100;
    assert next % 100 <= offset;
    SliceParsed(lines, next, offset + wanted);
    if end <= next + n {
      if end == |lines| {
        PagesBeyond(lines, next + 100, wanted);
      } else {
        NoPages(lines, next + 100, wanted);
      }
      SameSlice(lines, next, next + n, offset + wanted);
      assert Parsed(Slice(lines, next, next + n)) + [] == Parsed(Slice(lines, next, next + n));
    } else {
      PagesBound(lines, next + 100, wanted);
      LengthSplit(next, n, offset + wanted, |lines|);
      FullPage(next, wanted);
    }
  }

  /** A first page of 100 lines off the hundreds is the only one. */
  lemma FullPage(i: nat, limit: nat)
    requires i < limit && i % 100 != 0
    ensures PageSize(i, limit) == 100 ==> limit <= i + 100
  {
  }

  /** The first window is not the last and the limit is beyond it. */
  lemma FetchedAfter(lines: seq<string>, offset: nat, limit: int)
    requires WellFormed(lines) && !(1 <= limit <= 100) && offset + 100 < |lines|
    ensures Fetched(lines, offset, limit) == Direct(lines, offset, limit) <==> Gapless(offset, limit, |lines|)
  {
    hide Parsed, WellFormed, Pages, PageSize, Slice, Gapless;
    var next, wanted := offset + 100, Wanted(limit, |lines|);
    SliceParsed(lines, offset, next);
    SliceEmpty(lines, offset, next);
    PagesAfter(lines, offset, limit);
    SliceConcat(lines, offset, next, offset + wanted);
    ParsedConcat(Slice(lines, offset, next), Slice(lines, next, offset + wanted));
    SameTail(Parsed(Slice(lines, offset, next)), Pages(lines, next, wanted), Parsed(Slice(lines, next, offset + wanted)));
  }

  lemma SameTail<T>(a: seq<T>, b: seq<T>, c: seq<T>)
    ensures a + b == a + c <==> b == c
  {
    assert (a + b)[|a|..] == b && (a + c)[|a|..] == c;
  }

  /** Joining the pages gives the one listing of what is asked for exactly when they leave no gap. */
  lemma FetchedIsDirect(lines: seq<string>, offset: nat, limit: int)
    requires WellFormed(lines)
    ensures Fetched(lines, offset, limit) == Direct(lines, offset, limit) <==> Gapless(offset, limit, |lines|)
  {
    hide Parsed, WellFormed, Pages, PageSize;
    var size, wanted, total := WindowSize(limit), Wanted(limit, |lines|), |lines|;
    if 1 <= limit <= 100 || total <= offset + 100 {
      SliceParsed(lines, offset, offset + size);
      SliceNone<string>(0, 0);
      SliceEmpty(lines, offset, offset + size);
      SliceEmpty(lines, offset, offset + wanted);
      hide Slice;
      var got := Parsed(Slice(lines, offset, offset + size));
      if offset < total {
        SameSlice(lines, offset, offset + size, offset + wanted);
        if |got| < wanted {
          PagesBeyond(lines, offset + |got|, wanted);
          assert got + [] == got;
        }
      }
    } else {
      FetchedAfter(lines, offset, limit);
    }
  }

  /** In particular from the first line on, whatever the limit. */
  lemma FromTheStart(lines: seq<string>, limit: int)
    requires WellFormed(lines)
    ensures Fetched(lines, 0, limit) == Parsed(lines[..Min(Wanted(limit, |lines|), |lines|)])
  {
    FetchedIsDirect(lines, 0, limit);
    var wanted := Wanted(limit, |lines|);
    assert Slice(lines, 0, wanted) == lines[..Min(wanted, |lines|)];
  }

  /** But not always: of 250 lines, the 150 from line 100 on are cut short by the pages. */
  lemma LinesMissing(lines: seq<string>)
    requires WellFormed(lines) && |lines| == 250
    ensures !Gapless(100, 150, 250)
    ensures Fetched(lines, 100, 150) == Parsed(lines[100..200]) != Direct(lines, 100, 150) == Parsed(lines[100..])
  {
    FetchedIsDirect(lines, 100, 150);
    assert Slice(lines, 100, 200) == lines[100..200] && Slice(lines, 100, 250) == lines[100..];
    SliceParsed(lines, 100, 200);
    NoPages(lines, 200, 150);
    assert Parsed(lines[100..200]) + [] == Parsed(lines[100..200]);
  }

  lemma SuchLines()
    ensures WellFormed(seq(250, _ => "a - 1"))
  {
    var line := "a - 1";
    assert line[1..4] == " - " && SeparatorAt(line, 1);
    assert FindSeparator(line, 0) < |line|;
  }
}
