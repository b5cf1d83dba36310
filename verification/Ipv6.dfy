/**
 Reading internet addresses: parseIPv4 and parseIPv6 of luci2-base/htdocs/luci2/luci2.js.
 */
module Ipv6 {
  import opened Options

  type Numbers = Option<seq<int>>

  // ----- characters and numbers

  predicate Digit(c: char) {
    '0' <= c <= '9'
  }

  predicate HexDigit(c: char) {
    Digit(c) || 'a' <= c <= 'f' || 'A' <= c <= 'F'
  }

  predicate Digits(s: string) {
    forall i :: 0 <= i < |s| ==> Digit(s[i])
  }

  predicate HexDigits(s: string) {
    forall i :: 0 <= i < |s| ==> HexDigit(s[i])
  }

  function DigitValue(c: char): (v: nat)
    requires HexDigit(c)
    ensures v < 16
  {
    if Digit(c) then c as int - '0' as int
    else if 'a' <= c <= 'f' then c as int - 'a' as int + 10
    else c as int - 'A' as int + 10
  }

  /** The number a text of digits stands for. */
  function Value(s: string, radix: nat): nat
    requires HexDigits(s)
  {
    if s == "" then 0 else radix * Value(s[..|s| - 1], radix) + DigitValue(s[|s| - 1])
  }

  /** How many hexadecimal digits a text starts with. */
  function HexPrefix(s: string): (n: nat)
    ensures n <= |s| && HexDigits(s[..n])
    ensures n < |s| ==> !HexDigit(s[n])
  {
    if s == "" || !HexDigit(s[0]) then 0
    else
      var n := HexPrefix(s[1..]);
      assert s[..n + 1] == [s[0]] + s[1..][..n];
      n + 1
  }

  /** parseInt(s, 16), with None for NaN. */
  function ParseHex(s: string): Option<nat> {
    var n := HexPrefix(s);
    if n == 0 then None else Some(Value(s[..n], 16))
  }

  /** What `>> 0` makes of a number: 32 bits, with a sign. */
  function Int32(n: nat): (r: int)
    ensures -0x8000_0000 <= r < 0x8000_0000 && (r - n) % 0x1_0000_0000 == 0
  {
    var w := n % 0x1_0000_0000;
    if w < 0x8000_0000 then w else w - 0x1_0000_0000
  }

  // ----- splitting

  function Find(s: string, sep: char): (n: nat)
    ensures n <= |s|
    ensures n < |s| ==> s[n] == sep
    ensures forall i :: 0 <= i < n ==> s[i] != sep
  {
    if s == "" || s[0] == sep then 0 else 1 + Find(s[1..], sep)
  }

  function Join(parts: seq<string>, sep: string): string {
    if parts == [] then ""
    else if |parts| == 1 then parts[0]
    else parts[0] + sep + Join(parts[1..], sep)
  }

  /** split by one character */
  function Split(s: string, sep: char): (parts: seq<string>)
    ensures parts != [] && Join(parts, [sep]) == s
    decreases |s|
  {
    var n := Find(s, sep);
    if n == |s| then [s]
    else
      var rest := Split(s[n + 1..], sep);
      assert ([s[..n]] + rest)[1..] == rest;
      [s[..n]] + rest
  }

  predicate PairAt(s: string, i: int) {
    0 <= i && i + 1 < |s| && s[i] == ':' && s[i + 1] == ':'
  }

  function FindPair(s: string): (n: nat)
    ensures n <= |s|
    ensures n < |s| ==> PairAt(s, n)
    ensures forall i :: 0 <= i < n ==> !PairAt(s, i)
  {
    if s == "" || PairAt(s, 0) then 0
    else
      var n := FindPair(s[1..]);
      assert forall i :: 1 <= i < n + 1 ==> PairAt(s, i) == PairAt(s[1..], i - 1);
      n + 1
  }

  /** split(/::/) */
  function SplitPair(s: string): (parts: seq<string>)
    ensures parts != []
    decreases |s|
  {
    var n := FindPair(s);
    if n == |s| then [s] else [s[..n]] + SplitPair(s[n + 2..])
  }

  // ----- parseIPv4

  /** Four numbers of one to three digits. */
  predicate Dotted(s: string) {
    var parts := Split(s, '.');
    |parts| == 4 && forall i :: 0 <= i < 4 ==> 1 <= |parts[i]| <= 3 && Digits(parts[i])
  }

  function Byte(s: string): Numbers {
    if !Digits(s) || Value(s, 10) > 255 then None else Some([Value(s, 10)])
  }

  /** The numbers of all parts in a row, if every part has any. */
  function All(parts: seq<string>, read: string -> Numbers): Numbers {
    if parts == [] then Some([])
    else
      var before, last := All(parts[..|parts| - 1], read), read(parts[|parts| - 1]);
      if before.None? || last.None? then None else Some(before.value + last.value)
  }

  function Ipv4(s: string): Numbers {
    if Dotted(s) then All(Split(s, '.'), Byte) else None
  }

  lemma {:induction false} AllNone(parts: seq<string>, read: string -> Numbers, i: nat)
    requires i < |parts| && read(parts[i]).None?
    ensures All(parts, read).None?
  {
    if i < |parts| - 1 {
      AllNone(parts[..|parts| - 1], read, i);
    }
  }

  lemma AllNext(parts: seq<string>, read: string -> Numbers, i: nat)
    requires i < |parts|
    ensures All(parts[..i + 1], read) ==
            var before, last := All(parts[..i], read), read(parts[i]);
            if before.None? || last.None? then None else Some(before.value + last.value)
  {
    assert parts[..i + 1][..i] == parts[..i];
  }

  method ParseIPv4(str: string) returns (r: Numbers)
    ensures r == Ipv4(str)
  {
    hide Byte, All;
    if !Dotted(str) { return None; }
    var num: seq<int> := [];
    var parts := Split(str, '.');
    AllEmpty(Byte);
    for i := 0 to |parts|
      invariant All(parts[..i], Byte) == Some(num)
    {
      AllNext(parts, Byte, i);
      ByteValue(parts[i]);
      var n := Value(parts[i], 10);
      if n > 255 {
        AllNone(parts, Byte, i);
        return None;
      }
      num := num + [n];
    }
    assert parts[..|parts|] == parts;
    r := Some(num);
  }

  lemma AllEmpty(read: string -> Numbers)
    ensures forall parts: seq<string> :: All(parts[..0], read) == Some([])
  {
  }

  lemma ByteValue(s: string)
    requires Digits(s)
    ensures Byte(s) == if Value(s, 10) > 255 then None else Some([Value(s, 10)])
  {
  }

  // ----- parseIPv6

  /** The shape that is let in: hexadecimal digits and colons, and then dotted numbers, or none. */
  predicate Shaped(s: string) {
    exists k :: 1 <= k <= |s| && HeadChars(s[..k]) && (k == |s| || Dotted(s[k..]))
  }

  predicate HeadChars(s: string) {
    forall i :: 0 <= i < |s| ==> HexDigit(s[i]) || s[i] == ':'
  }

  function Group(s: string): Numbers {
    var n := ParseHex(s);
    if n.None? then None else Some([Int32(n.value / 256), n.value % 256])
  }

  function GroupOrTail(s: string): Numbers {
    if 0 < Find(s, '.') < |s| then Ipv4(s) else Group(s)
  }

  function Zeros(n: int): seq<int> {
    if n <= 0 then [] else seq(n, _ => 0)
  }

  /** Two halves with the gap between them filled. */
  function Assembled(left: seq<int>, right: seq<int>): (r: Numbers)
    ensures r.Some? ==> |r.value| == 16
  {
    if right != [] && |left| + |right| > 15 then None
    else
      var num := left + Zeros(16 - |left| - |right|) + right;
      if |num| > 16 then None else Some(num)
  }

  function Half(s: string, read: string -> Numbers): Numbers {
    if s == "" then Some([]) else All(Split(s, ':'), read)
  }

  function Ipv6(s: string): (r: Numbers)
    ensures r.Some? ==> |r.value| == 16
  {
    if !Shaped(s) then None
    else
      var parts := SplitPair(s);
      if |parts| > 2 then None
      else
        var left := Half(parts[0], Group);
        var right := if |parts| > 1 then Half(parts[1], GroupOrTail) else Some([]);
        if left.None? || right.None? then None else Assembled(left.value, right.value)
  }

  method ParseIPv6(str: string) returns (r: Numbers)
    ensures r == Ipv6(str)
  {
    hide Shaped, All, Split, SplitPair, ParseHex, Ipv4, Find, Join;
    if !Shaped(str) { return None; }
    var parts := SplitPair(str);
    if |parts| == 0 || |parts| > 2 { return None; }
    AllEmpty(Group);
    AllEmpty(GroupOrTail);
    var lnum: seq<int> := [];
    if |parts[0]| > 0 {
      var left := Split(parts[0], ':');
      for i := 0 to |left|
        invariant All(left[..i], Group) == Some(lnum)
      {
        AllNext(left, Group, i);
        var n := ParseHex(left[i]);
        if n.None? {
          AllNone(left, Group, i);
          return None;
        }
        lnum := lnum + [Int32(n.value / 256), n.value % 256];
      }
      assert left[..|left|] == left;
    }
    var rnum: seq<int> := [];
    if |parts| > 1 && |parts[1]| > 0 {
      var right := Split(parts[1], ':');
      for i := 0 to |right|
        invariant All(right[..i], GroupOrTail) == Some(rnum)
      {
        AllNext(right, GroupOrTail, i);
        if 0 < Find(right[i], '.') < |right[i]| {
          var addr := ParseIPv4(right[i]);
          if addr.None? {
            AllNone(right, GroupOrTail, i);
            return None;
          }
          rnum := rnum + addr.value;
          continue;
        }
        var n := ParseHex(right[i]);
        if n.None? {
          AllNone(right, GroupOrTail, i);
          return None;
        }
        rnum := rnum + [Int32(n.value / 256), n.value % 256];
      }
      assert right[..|right|] == right;
    }
    if |rnum| > 0 && |lnum| + |rnum| > 15 { return None; }
    var num := lnum;
    var i := 0;
    while i < 16 - |lnum| - |rnum|
      invariant 0 <= i && (i == 0 || i <= 16 - |lnum| - |rnum|)
      invariant num == lnum + Zeros(i)
    {
      num := num + [0];
      i := i + 1;
    }
    num := num + rnum;
    if |num| > 16 { return None; }
    r := Some(num);
  }

  // ----- written addresses

  /** A group in hexadecimal, of any length. */
  predicate HexGroup(s: string) {
    s != "" && HexDigits(s)
  }

  /** A dotted tail, each number of which fits a byte. */
  predicate Quad(s: string) {
    Dotted(s) && forall p :: p in Split(s, '.') ==> Value(p, 10) <= 255
  }

  /** Groups on the left, and if there is a double colon, groups and perhaps a dotted tail on the right of it. */
  datatype Address = Full(left: seq<string>) | Gap(left: seq<string>, right: seq<string>, tail: Option<string>)
  {
    predicate Valid() {
      && (forall g :: g in left ==> HexGroup(g))
      && (Full? ==> left != [])
      && (Gap? ==> forall g :: g in right ==> HexGroup(g))
      && (Gap? && tail.Some? ==> Quad(tail.value))
    }

    function RightParts(): seq<string>
      requires Gap?
    {
      right + if tail.Some? then [tail.value] else []
    }

    function Text(): string {
      if Full? then Join(left, ":") else Join(left, ":") + "::" + Join(RightParts(), ":")
    }
  }

  /** The two bytes of each group, and so on for all of them. */
  function GroupBytes(groups: seq<string>): (bytes: seq<int>)
    requires forall g :: g in groups ==> HexGroup(g)
    ensures |bytes| == 2 * |groups|
  {
    if groups == [] then []
    else
      assert HexGroup(groups[|groups| - 1]);
      var n := Value(groups[|groups| - 1], 16);
      GroupBytes(groups[..|groups| - 1]) + [Int32(n / 256), n % 256]
  }

  function TailBytes(tail: Option<string>): (bytes: seq<int>)
    requires tail.Some? ==> Quad(tail.value)
    ensures |bytes| == if tail.Some? then 4 else 0
  {
    if tail.None? then []
    else
      var p := Split(tail.value, '.');
      [Value(p[0], 10), Value(p[1], 10), Value(p[2], 10), Value(p[3], 10)]
  }

  // ----- splitting what has been joined

  /** A part without separators in it. */
  predicate Part(s: string, sep: char) {
    forall i :: 0 <= i < |s| ==> s[i] != sep
  }

  lemma FindAt(s: string, sep: char, n: nat)
    requires n <= |s| && (n < |s| ==> s[n] == sep) && forall i :: 0 <= i < n ==> s[i] != sep
    ensures Find(s, sep) == n
  {
  }

  /** And the parts of what has been joined are the ones that were. */
  lemma {:induction false} SplitJoin(parts: seq<string>, sep: char)
    requires parts != [] && forall p :: p in parts ==> Part(p, sep)
    ensures Split(Join(parts, [sep]), sep) == parts
  {
    var s, part := Join(parts, [sep]), parts[0];
    assert Part(part, sep);
    FindAt(s, sep, |part|);
    if |parts| > 1 {
      assert s[..|part|] == part && s[|part| + 1..] == Join(parts[1..], [sep]);
      SplitJoin(parts[1..], sep);
      assert parts == [part] + parts[1..];
    } else {
      assert parts == [part];
    }
  }

  lemma FindPairAt(s: string, n: nat)
    requires n <= |s| && (n < |s| ==> PairAt(s, n)) && forall i :: 0 <= i < n ==> !PairAt(s, i)
    ensures FindPair(s) == n
  {
  }

  /** Joined parts have no double colon, and no colon at either end. */
  lemma {:induction false} JoinedParts(parts: seq<string>)
    requires forall p :: p in parts ==> p != "" && Part(p, ':')
    ensures var s := Join(parts, ":");
            && (forall i :: !PairAt(s, i))
            && (parts == [] <==> s == "")
            && (s != "" ==> s[0] != ':' && s[|s| - 1] != ':')
  {
    if parts != [] {
      assert parts[0] in parts;
      if |parts| > 1 {
        assert forall p :: p in parts[1..] ==> p in parts;
        JoinedParts(parts[1..]);
        OnePartMore(parts[0], Join(parts[1..], ":"));
      }
    }
  }

  lemma OnePartMore(part: string, rest: string)
    requires part != "" && Part(part, ':') && (forall i :: !PairAt(rest, i))
    requires rest != "" && rest[0] != ':' && rest[|rest| - 1] != ':'
    ensures var s := part + ":" + rest;
            (forall i :: !PairAt(s, i)) && s != "" && s[0] != ':' && s[|s| - 1] != ':'
  {
    var s := part + ":" + rest;
    forall i
      ensures !PairAt(s, i)
    {
      if i > |part| && i + 1 < |s| {
        assert !PairAt(rest, i - |part| - 1);
      }
    }
  }

  lemma {:induction false} SplitPairAt(left: string, right: string)
    requires forall i :: !PairAt(left, i) && !PairAt(right, i)
    requires left != "" ==> left[|left| - 1] != ':'
    requires right != "" ==> right[0] != ':'
    ensures SplitPair(left + "::" + right) == [left, right]
    ensures SplitPair(left) == [left]
  {
    var s := left + "::" + right;
    forall i | 0 <= i < |left|
      ensures !PairAt(s, i)
    {
      assert !PairAt(left, i);
    }
    FindPairAt(s, |left|);
    assert s[..|left|] == left && s[|left| + 2..] == right;
    FindPairAt(right, |right|);
    FindPairAt(left, |left|);
  }

  // ----- reading what has been written

  lemma HexGroupReads(g: string)
    requires HexGroup(g)
    ensures Group(g) == Some([Int32(Value(g, 16) / 256), Value(g, 16) % 256])
    ensures GroupOrTail(g) == Group(g)
    ensures Part(g, ':')
  {
    PrefixOfDigits(g);
    assert g[..|g|] == g;
    NotFound(g, '.');
  }

  lemma NotFound(s: string, sep: char)
    requires Part(s, sep)
    ensures Find(s, sep) == |s|
  {
    FindAt(s, sep, |s|);
  }

  lemma PrefixOfDigits(g: string)
    requires HexDigits(g)
    ensures HexPrefix(g) == |g|
  {
  }

  lemma {:induction false} GroupsRead(groups: seq<string>, read: string -> Numbers)
    requires forall g :: g in groups ==> HexGroup(g) && read(g) == Group(g)
    ensures All(groups, read) == Some(GroupBytes(groups))
  {
    if groups != [] {
      var before, last := groups[..|groups| - 1], groups[|groups| - 1];
      assert groups == before + [last];
      GroupsRead(before, read);
      HexGroupReads(last);
    }
  }

  /** A dotted tail has no colon, does not start with a dot, and is read as its four numbers. */
  lemma QuadReads(s: string)
    requires Quad(s)
    ensures GroupOrTail(s) == Some(TailBytes(Some(s)))
    ensures s != "" && Part(s, ':')
  {
    hide Value, Int32, HexPrefix;
    var parts := Split(s, '.');
    FourParts(s);
    forall i | 0 <= i < 4
      ensures Byte(parts[i]) == Some([Value(parts[i], 10)])
    {
      assert parts[i] in parts;
    }
    FourNumbers(parts, Byte);
  }

  lemma FourNumbers(parts: seq<string>, read: string -> Numbers)
    requires |parts| == 4 && forall i :: 0 <= i < 4 ==> read(parts[i]).Some? && |read(parts[i]).value| == 1
    ensures All(parts, read) ==
            Some([read(parts[0]).value[0], read(parts[1]).value[0], read(parts[2]).value[0], read(parts[3]).value[0]])
  {
    hide All;
    AllEmpty(read);
    var a, b, c, d := read(parts[0]).value, read(parts[1]).value, read(parts[2]).value, read(parts[3]).value;
    AllNext(parts, read, 0);
    AllNext(parts, read, 1);
    AllNext(parts, read, 2);
    AllNext(parts, read, 3);
    assert parts[..4] == parts;
    assert All(parts, read) == Some([] + a + b + c + d);
    assert [] + a + b + c + d == [a[0], b[0], c[0], d[0]];
  }

  lemma {:induction false} FourParts(s: string)
    requires Dotted(s)
    ensures 0 < Find(s, '.') < |s|
    ensures s != "" && forall i :: 0 <= i < |s| ==> Digit(s[i]) || s[i] == '.'
  {
    DigitParts(Split(s, '.'));
    assert Split(s, '.')[0] == s[..Find(s, '.')];
  }

  lemma {:induction false} DigitParts(parts: seq<string>)
    requires forall k :: 0 <= k < |parts| ==> Digits(parts[k])
    ensures forall i :: 0 <= i < |Join(parts, ".")| ==> Digit(Join(parts, ".")[i]) || Join(parts, ".")[i] == '.'
  {
    if |parts| > 1 {
      DigitParts(parts[1..]);
    }
  }

  lemma {:induction false} JoinSnoc(parts: seq<string>, last: string, sep: string)
    ensures Join(parts + [last], sep) == (if parts == [] then "" else Join(parts, sep) + sep) + last
  {
    if |parts| == 1 {
      assert (parts + [last])[1..] == [last];
    } else if parts != [] {
      JoinSnoc(parts[1..], last, sep);
      assert (parts + [last])[1..] == parts[1..] + [last];
    }
  }

  lemma {:induction false} GroupsShaped(groups: seq<string>)
    requires forall g :: g in groups ==> HexGroup(g)
    ensures HeadChars(Join(groups, ":"))
    ensures forall g :: g in groups ==> g != "" && Part(g, ':')
    ensures groups != [] ==> Join(groups, ":") != ""
  {
    if groups != [] {
      assert HexGroup(groups[0]);
      GroupsShaped(groups[1..]);
    }
  }

  lemma TextShaped(a: Address)
    requires a.Valid()
    ensures Shaped(a.Text())
  {
    hide Dotted, Join;
    var s, left := a.Text(), Join(a.left, ":");
    GroupsShaped(a.left);
    if a.Full? {
      assert s[..|s|] == s;
    } else {
      GroupsShaped(a.right);
      if a.tail.None? {
        assert a.RightParts() == a.right;
        assert s[..|s|] == s;
      } else {
        JoinSnoc(a.right, a.tail.value, ":");
        var head := left + "::" + if a.right == [] then "" else Join(a.right, ":") + ":";
        assert s == head + a.tail.value;
        assert HeadChars(head);
        assert s[..|head|] == head && s[|head|..] == a.tail.value;
      }
    }
  }

  /** Either half of a text gives the numbers of its parts. */
  lemma LeftRead(groups: seq<string>)
    requires forall g :: g in groups ==> HexGroup(g)
    ensures Half(Join(groups, ":"), Group) == Some(GroupBytes(groups))
  {
    hide Group;
    GroupsShaped(groups);
    if groups != [] {
      SplitJoin(groups, ':');
      GroupsRead(groups, Group);
    }
  }

  lemma RightRead(a: Address)
    requires a.Valid() && a.Gap?
    ensures Half(Join(a.RightParts(), ":"), GroupOrTail) == Some(GroupBytes(a.right) + TailBytes(a.tail))
    ensures forall p :: p in a.RightParts() ==> p != "" && Part(p, ':')
  {
    hide Group, GroupOrTail, Quad, Split, TailBytes, HexGroup, GroupBytes;
    var parts := a.RightParts();
    GroupsShaped(a.right);
    forall g | g in a.right
      ensures GroupOrTail(g) == Group(g)
    {
      HexGroupReads(g);
    }
    GroupsRead(a.right, GroupOrTail);
    if a.tail.Some? {
      QuadReads(a.tail.value);
      AllNext(parts, GroupOrTail, |a.right|);
      assert parts[..|a.right|] == a.right && parts[..|parts|] == parts;
    } else {
      assert parts == a.right;
      assert GroupBytes(a.right) + [] == GroupBytes(a.right);
    }
    JoinedParts(parts);
    if parts != [] {
      SplitJoin(parts, ':');
    }
  }

  /** Reading a written address puts the bytes of its halves on either side of the gap. */
  lemma {:induction false} ReadsText(a: Address)
    requires a.Valid()
    ensures Ipv6(a.Text()) ==
            Assembled(GroupBytes(a.left), if a.Full? then [] else GroupBytes(a.right) + TailBytes(a.tail))
  {
    hide Shaped, Join, Half, GroupBytes, TailBytes, Assembled, SplitPair, HexGroup;
    TextShaped(a);
    LeftRead(a.left);
    GroupsShaped(a.left);
    JoinedParts(a.left);
    if a.Full? {
      SplitPairAt(Join(a.left, ":"), "");
    } else {
      RightRead(a);
      JoinedParts(a.RightParts());
      SplitPairAt(Join(a.left, ":"), Join(a.RightParts(), ":"));
    }
  }

  // ----- what that means for an address

  /** Groups of at most four digits: sixteen bits. */
  predicate Short(groups: seq<string>) {
    forall g :: g in groups ==> HexGroup(g) && |g| <= 4
  }

  function Values(groups: seq<string>): (words: seq<nat>)
    requires forall g :: g in groups ==> HexGroup(g)
    ensures |words| == |groups|
  {
    seq(|groups|, i requires 0 <= i < |groups| => assert HexGroup(groups[i]); Value(groups[i], 16))
  }

  /** The eight words of an address, as in section 2.2 of RFC 4291: the double colon stands for words of zero,
      at least one, and the four numbers of a dotted tail are the bytes of two words. */
  predicate Complete(a: Address) {
    && a.Valid() && Short(a.left)
    && if a.Full? then |a.left| == 8
       else Short(a.right) && |a.left| + |a.right| + (if a.tail.Some? then 2 else 0) <= 7
  }

  function TailWords(tail: Option<string>): (words: seq<nat>)
    requires tail.Some? ==> Quad(tail.value)
    ensures |words| == if tail.Some? then 2 else 0
  {
    if tail.None? then []
    else
      var p := Split(tail.value, '.');
      [256 * Value(p[0], 10) + Value(p[1], 10), 256 * Value(p[2], 10) + Value(p[3], 10)]
  }

  function Words(a: Address): (words: seq<nat>)
    requires Complete(a)
    ensures |words| == 8
  {
    if a.Full? then Values(a.left)
    else
      var right := Values(a.right) + TailWords(a.tail);
      Values(a.left) + seq(8 - |a.left| - |right|, _ => 0) + right
  }

  /** Sixteen bits each, the high byte first. */
  function BigEndian(words: seq<nat>): (bytes: seq<int>)
    ensures |bytes| == 2 * |words|
  {
    if words == [] then []
    else BigEndian(words[..|words| - 1]) + [words[|words| - 1] / 256, words[|words| - 1] % 256]
  }

  lemma {:induction false} BigEndianConcat(a: seq<nat>, b: seq<nat>)
    ensures BigEndian(a + b) == BigEndian(a) + BigEndian(b)
    decreases |b|
  {
    if b == [] {
      assert a + b == a;
    } else {
      BigEndianConcat(a, b[..|b| - 1]);
      assert (a + b)[..|a + b| - 1] == a + b[..|b| - 1];
    }
  }

  lemma BigEndianSnoc(words: seq<nat>, w: nat)
    ensures BigEndian(words + [w]) == BigEndian(words) + [w / 256, w % 256]
  {
    assert (words + [w])[..|words|] == words;
  }

  lemma ValuesSnoc(groups: seq<string>, g: string)
    requires forall h :: h in groups + [g] ==> HexGroup(h)
    ensures HexGroup(g) && forall h :: h in groups ==> HexGroup(h)
    ensures Values(groups + [g]) == Values(groups) + [Value(g, 16)]
  {
    hide Value, HexGroup;
    assert g in groups + [g];
    assert forall h :: h in groups ==> h in groups + [g];
  }

  lemma NoBytes()
    ensures BigEndian([]) == []
  {
  }

  lemma {:induction false} BigEndianZeros(n: nat)
    ensures BigEndian(seq(n, _ => 0)) == Zeros(2 * n)
  {
    if n > 0 {
      BigEndianZeros(n - 1);
      assert seq(n, _ => 0)[..n - 1] == seq(n - 1, _ => 0);
      assert Zeros(2 * n) == Zeros(2 * (n - 1)) + [0, 0];
    }
  }

  lemma {:induction false} ValueBound(s: string)
    requires HexDigits(s) && |s| <= 4
    ensures Value(s, 16) < if |s| == 0 then 1 else if |s| == 1 then 16 else if |s| == 2 then 256 else if |s| == 3 then 4096 else 65536
  {
    if s != "" {
      ValueBound(s[..|s| - 1]);
    }
  }

  lemma {:induction false} ShortBytes(groups: seq<string>)
    requires Short(groups)
    ensures GroupBytes(groups) == BigEndian(Values(groups))
    ensures forall w :: w in Values(groups) ==> w < 65536
  {
    hide Value, BigEndian, HexDigit, Values, Int32;
    if groups == [] {
      NoBytes();
    } else {
      var before, last := groups[..|groups| - 1], groups[|groups| - 1];
      assert groups == before + [last];
      ShortBytes(before);
      ValueBound(last);
      HighByte(Value(last, 16));
      BigEndianSnoc(Values(before), Value(last, 16));
      ValuesSnoc(before, last);
    }
  }

  lemma HighByte(n: nat)
    requires n < 65536
    ensures Int32(n / 256) == n / 256
  {
  }

  lemma TailInWords(tail: Option<string>)
    requires tail.Some? ==> Quad(tail.value)
    ensures TailBytes(tail) == BigEndian(TailWords(tail))
    ensures forall w :: w in TailWords(tail) ==> w < 65536
  {
    hide Value, Split;
    if tail.Some? {
      var p := Split(tail.value, '.');
      forall i | 0 <= i < 4
        ensures Value(p[i], 10) <= 255
      {
        assert p[i] in p;
      }
      hide Quad, BigEndian;
      BigEndianTwo(256 * Value(p[0], 10) + Value(p[1], 10), 256 * Value(p[2], 10) + Value(p[3], 10));
    }
  }

  lemma BigEndianTwo(high: nat, low: nat)
    ensures BigEndian([high, low]) == [high / 256, high % 256, low / 256, low % 256]
  {
    assert [high, low][..1] == [high] && [high][..0] == [];
  }

  /** The bytes of the words on either side of the gap, and the zeros in it. */
  lemma GapInWords(a: Address)
    requires Complete(a) && a.Gap?
    ensures Assembled(GroupBytes(a.left), GroupBytes(a.right) + TailBytes(a.tail)) == Some(BigEndian(Words(a)))
  {
    hide GroupBytes, TailBytes, BigEndian, Zeros, Values, TailWords, Assembled, HexGroup, Quad;
    ShortBytes(a.left);
    ShortBytes(a.right);
    TailInWords(a.tail);
    var left, right := Values(a.left), Values(a.right) + TailWords(a.tail);
    var gap := 8 - |left| - |right|;
    BigEndianConcat(Values(a.right), TailWords(a.tail));
    BigEndianConcat(left + seq(gap, _ => 0), right);
    BigEndianConcat(left, seq(gap, _ => 0));
    BigEndianZeros(gap);
    GapBytes(BigEndian(left), BigEndian(right), 2 * gap);
  }

  lemma WordsInRange(a: Address)
    requires Complete(a)
    ensures forall w :: w in Words(a) ==> w < 65536
  {
    hide BigEndian, GroupBytes, TailBytes, Values, TailWords, HexGroup, Quad;
    ShortBytes(a.left);
    if a.Gap? {
      ShortBytes(a.right);
      TailInWords(a.tail);
    }
  }

  /** A complete address is read as its sixteen bytes. */
  lemma {:induction false} RoundTrip(a: Address)
    requires Complete(a)
    ensures Ipv6(a.Text()) == Some(BigEndian(Words(a)))
    ensures forall w :: w in Words(a) ==> w < 65536
  {
    ReadsText(a);
    WordsInRange(a);
    hide Ipv6, GroupBytes, TailBytes, BigEndian, Assembled, Words;
    if a.Full? {
      FullInWords(a);
    } else {
      GapInWords(a);
    }
  }

  lemma FullInWords(a: Address)
    requires Complete(a) && a.Full?
    ensures Assembled(GroupBytes(a.left), []) == Some(BigEndian(Words(a)))
  {
    hide GroupBytes, BigEndian, Values;
    ShortBytes(a.left);
    FullBytes(BigEndian(Values(a.left)));
  }

  lemma FullBytes(bytes: seq<int>)
    requires |bytes| == 16
    ensures Assembled(bytes, []) == Some(bytes)
  {
    assert bytes + [] + [] == bytes;
  }

  lemma GapBytes(left: seq<int>, right: seq<int>, gap: nat)
    requires |left| + |right| + gap == 16 && gap > 0
    ensures Assembled(left, right) == Some(left + Zeros(gap) + right)
  {
  }

  /** What is let in: at most eight groups in all, with the gap not empty where anything follows it. */
  lemma AcceptedExactly(a: Address)
    requires a.Valid()
    ensures var right := if a.Full? then 0 else |a.right| + if a.tail.Some? then 2 else 0;
            Ipv6(a.Text()).Some? <==> |a.left| + right <= if right == 0 then 8 else 7
  {
    hide Ipv6, GroupBytes, TailBytes;
    ReadsText(a);
  }

  /** The high byte of each word and then its low byte. */
  lemma {:induction false} BigEndianAt(words: seq<nat>, i: nat)
    requires i < |words| && forall k :: 0 <= k < |words| ==> words[k] < 65536
    ensures var b := BigEndian(words);
            b[2 * i] * 256 + b[2 * i + 1] == words[i] && 0 <= b[2 * i] < 256 && 0 <= b[2 * i + 1] < 256
    decreases |words|
  {
    if i < |words| - 1 {
      BigEndianAt(words[..|words| - 1], i);
    }
  }

  // ----- nothing else is let in

  /** No colon comes after a dot. */
  predicate DotsLast(s: string) {
    forall a, b :: 0 <= a < b < |s| && s[a] == '.' ==> s[b] != ':'
  }

  predicate AddressChars(s: string) {
    forall i :: 0 <= i < |s| ==> HexDigit(s[i]) || s[i] == ':' || s[i] == '.'
  }

  lemma ShapedChars(s: string)
    requires Shaped(s)
    ensures AddressChars(s) && DotsLast(s)
  {
    hide Dotted;
    var k :| 1 <= k <= |s| && HeadChars(s[..k]) && (k == |s| || Dotted(s[k..]));
    if k < |s| {
      FourParts(s[k..]);
    }
    forall i | 0 <= i < |s|
      ensures if i < k then HexDigit(s[i]) || s[i] == ':' else Digit(s[i]) || s[i] == '.'
    {
      if i < k {
        assert s[..k][i] == s[i];
      } else {
        assert s[k..][i - k] == s[i];
      }
    }
  }

  /** A part that is read is a group or a dotted tail. */
  lemma PartRead(g: string)
    requires AddressChars(g) && Part(g, ':') && GroupOrTail(g).Some?
    ensures if Part(g, '.') then HexGroup(g) else Quad(g)
  {
    hide Value, Split;
    if 0 < Find(g, '.') < |g| {
      BytesRead(g);
    }
  }

  lemma BytesRead(s: string)
    requires Ipv4(s).Some?
    ensures Quad(s)
  {
    hide Value;
    var parts := Split(s, '.');
    AllRead(parts, Byte);
    forall p | p in parts
      ensures Digits(p) && Value(p, 10) <= 255
    {
      assert Byte(p).Some?;
    }
  }

  lemma SplitFirst(s: string, sep: char)
    ensures var n := Find(s, sep);
            Split(s, sep) == if n == |s| then [s] else [s[..n]] + Split(s[n + 1..], sep)
  {
  }

  lemma {:induction false} PartsRead(s: string)
    requires AddressChars(s) && DotsLast(s) && forall g :: g in Split(s, ':') ==> GroupOrTail(g).Some?
    ensures var parts := Split(s, ':');
            (forall i :: 0 <= i < |parts| - 1 ==> HexGroup(parts[i])) &&
            if Part(s, '.') then HexGroup(parts[|parts| - 1])
            else HexGroup(parts[|parts| - 1]) || Quad(parts[|parts| - 1])
    decreases |s|
  {
    hide GroupOrTail, HexGroup, Quad, Split;
    var n := Find(s, ':');
    SplitFirst(s, ':');
    if n == |s| {
      PartRead(s);
    } else {
      var first, rest := s[..n], s[n + 1..];
      var others := Split(rest, ':');
      assert ([first] + others)[0] == first;
      PartRead(first);
      assert forall g :: g in others ==> g in [first] + others;
      PartsRead(rest);
      assert forall i :: 1 <= i < |others| + 1 ==> ([first] + others)[i] == others[i - 1];
    }
  }

  lemma {:induction false} PairParts(s: string)
    ensures var parts := SplitPair(s);
            && (|parts| == 1 ==> parts[0] == s && forall i :: !PairAt(s, i))
            && (|parts| == 2 ==> s == parts[0] + "::" + parts[1])
  {
    var n := FindPair(s);
    if n < |s| {
      var rest := s[n + 2..];
      assert s == s[..n] + "::" + rest;
      if FindPair(rest) == |rest| {
        assert SplitPair(s)[1] == rest;
      }
    } else {
      assert forall i :: i >= |s| ==> !PairAt(s, i);
    }
  }

  lemma AllRead(parts: seq<string>, read: string -> Numbers)
    requires All(parts, read).Some?
    ensures forall g :: g in parts ==> read(g).Some?
  {
    hide All;
    forall g | g in parts
      ensures read(g).Some?
    {
      var i :| 0 <= i < |parts| && parts[i] == g;
      if read(g).None? {
        AllNone(parts, read, i);
      }
    }
  }

  function PartsOf(s: string): seq<string> {
    if s == "" then [] else Split(s, ':')
  }

  /** What stands to the left of the double colon, or all there is, when there are no dots in it. */
  lemma LeftGroups(s: string)
    requires AddressChars(s) && Part(s, '.') && Half(s, Group).Some?
    ensures (forall g :: g in PartsOf(s) ==> HexGroup(g)) && Join(PartsOf(s), ":") == s
  {
    hide HexGroup, Group, Split;
    if s != "" {
      AllRead(Split(s, ':'), Group);
      SplitParts(s);
      forall g | g in Split(s, ':')
        ensures GroupOrTail(g).Some?
      {
        NotFound(g, '.');
      }
      PartsRead(s);
    }
  }

  lemma {:induction false} SplitParts(s: string)
    ensures Part(s, '.') ==> forall g :: g in Split(s, ':') ==> Part(g, '.')
    decreases |s|
  {
    var n := Find(s, ':');
    if n < |s| {
      SplitParts(s[n + 1..]);
    }
  }

  /** How many groups there are beside a double colon, a dotted tail counting for two. */
  function Groups(a: Address): (n: nat)
  {
    |a.left| + if a.Full? then 0 else |a.right| + if a.tail.Some? then 2 else 0
  }

  lemma RightGroups(left: string, right: string) returns (a: Address)
    requires AddressChars(right) && DotsLast(right) && Half(right, GroupOrTail).Some?
    requires (forall g :: g in PartsOf(left) ==> HexGroup(g)) && Join(PartsOf(left), ":") == left
    ensures a.Valid() && a.Text() == left + "::" + right
  {
    hide HexGroup, Quad, GroupOrTail, Split, Join;
    var parts := PartsOf(right);
    NothingJoined();
    if right == "" {
      a := Gap(PartsOf(left), [], None);
    } else {
      AllRead(parts, GroupOrTail);
      PartsRead(right);
      var last := |parts| - 1;
      if HexGroup(parts[last]) {
        a := Gap(PartsOf(left), parts, None);
        assert a.RightParts() == parts;
      } else {
        a := Gap(PartsOf(left), parts[..last], Some(parts[last]));
        assert a.RightParts() == parts;
      }
    }
  }

  lemma NothingJoined()
    ensures Join([], ":") == ""
  {
  }

  /** A text with a double colon in it or without dots is let in if and only if it is a written address with at
      most eight groups, and at most seven beside a double colon that anything follows. */
  lemma AcceptedTexts(s: string)
    requires (exists i :: PairAt(s, i)) || Part(s, '.')
    ensures Ipv6(s).Some? <==>
            exists a: Address :: a.Valid() && s == a.Text() && Groups(a) <= if a.Full? || a.RightParts() == [] then 8 else 7
  {
    hide Shaped, Half, Assembled, HexGroup, Quad;
    forall a: Address | a.Valid() && s == a.Text()
      ensures Ipv6(s).Some? <==> Groups(a) <= if a.Full? || a.RightParts() == [] then 8 else 7
    {
      AcceptedExactly(a);
    }
    if Ipv6(s).Some? {
      var parts := SplitPair(s);
      ShapedChars(s);
      PairParts(s);
      if |parts| == 1 {
        LeftGroups(s);
        NotEmpty(s);
        var a := Full(PartsOf(s));
        assert a.Valid() && s == a.Text();
      } else {
        assert s[|parts[0]|] == ':';
        assert forall i :: 0 <= i < |parts[0]| ==> parts[0][i] == s[i];
        assert forall i :: 0 <= i < |parts[1]| ==> parts[1][i] == s[|parts[0]| + 2 + i];
        LeftGroups(parts[0]);
        var a := RightGroups(parts[0], parts[1]);
        assert a.Valid() && s == a.Text();
      }
    }
  }

  lemma NotEmpty(s: string)
    requires Shaped(s)
    ensures s != ""
  {
  }

  /** These parts are those, but for the last, which is cut at its first dot. */
  predicate LastCut(cut: seq<string>, parts: seq<string>) {
    var last := |parts| - 1;
    && |cut| == |parts| && last >= 0
    && cut[..last] == parts[..last] && cut[last] == parts[last][..Find(parts[last], '.')]
  }

  lemma OneMoreCut(first: string, cut: seq<string>, parts: seq<string>)
    requires LastCut(cut, parts)
    ensures LastCut([first] + cut, [first] + parts)
  {
    var last := |parts| - 1;
    assert ([first] + parts)[..last + 1] == [first] + parts[..last];
    assert ([first] + cut)[..last + 1] == [first] + cut[..last];
  }

  lemma CutSlices(s: string, n: nat, dot: nat)
    requires n < dot <= |s|
    ensures s[..dot][..n] == s[..n] && s[..dot][n + 1..] == s[n + 1..][..dot - n - 1]
  {
  }

  lemma DotAfter(s: string, n: nat, dot: nat)
    requires DotsLast(s) && n < |s| && s[n] == ':' && dot <= |s| && (dot < |s| ==> s[dot] == '.')
    ensures n < dot && DotsLast(s[n + 1..])
  {
  }

  /** The first colon of a text comes before its first dot, if there are both. */
  lemma ColonFirst(s: string)
    requires DotsLast(s) && Find(s, ':') < |s|
    ensures var n, dot := Find(s, ':'), Find(s, '.');
            && n < dot && Find(s[..dot], ':') == n && Find(s[n + 1..], '.') == dot - n - 1
            && s[..dot][..n] == s[..n] && s[..dot][n + 1..] == s[n + 1..][..dot - n - 1]
            && DotsLast(s[n + 1..])
  {
    hide Find, DotsLast;
    var n, dot := Find(s, ':'), Find(s, '.');
    DotAfter(s, n, dot);
    CutSlices(s, n, dot);
    FindAt(s[..dot], ':', n);
    FindAt(s[n + 1..], '.', dot - n - 1);
  }

  lemma {:induction false} CutParts(s: string)
    requires DotsLast(s)
    ensures LastCut(Split(s[..Find(s, '.')], ':'), Split(s, ':'))
    decreases |s|
  {
    hide Split, LastCut, Find, DotsLast;
    var n, dot := Find(s, ':'), Find(s, '.');
    SplitFirst(s, ':');
    SplitFirst(s[..dot], ':');
    if n == |s| {
      OnlyCut(s);
    } else {
      ColonFirst(s);
      CutParts(s[n + 1..]);
      OneMoreCut(s[..n], Split(s[n + 1..][..dot - n - 1], ':'), Split(s[n + 1..], ':'));
    }
  }

  lemma OnlyCut(s: string)
    requires Find(s, ':') == |s|
    ensures var cut := s[..Find(s, '.')];
            Find(cut, ':') == |cut| && LastCut([cut], [s])
  {
    NotFound(s[..Find(s, '.')], ':');
  }

  /** Parsing a hexadecimal number ends at a dot anyway. */
  lemma {:induction false} PrefixCut(g: string)
    ensures var cut := g[..Find(g, '.')];
            HexPrefix(cut) == HexPrefix(g) && g[..HexPrefix(g)] == cut[..HexPrefix(cut)]
    decreases |g|
  {
    if g != "" && HexDigit(g[0]) {
      PrefixCut(g[1..]);
      assert g[..Find(g, '.')][1..] == g[1..][..Find(g[1..], '.')];
    }
  }

  lemma AllSnoc(parts: seq<string>, read: string -> Numbers)
    requires parts != []
    ensures All(parts, read) ==
            var before, last := All(parts[..|parts| - 1], read), read(parts[|parts| - 1]);
            if before.None? || last.None? then None else Some(before.value + last.value)
  {
  }

  lemma WithoutPair(s: string)
    requires Shaped(s) && s != "" && forall i :: !PairAt(s, i)
    ensures var left := All(Split(s, ':'), Group);
            Ipv6(s) == if left.None? then None else Assembled(left.value, [])
  {
    hide Shaped, Split, All, Assembled, Group;
    FindPairAt(s, |s|);
    assert SplitPair(s) == [s];
  }

  /** Without a double colon a dotted tail is read up to its first dot only, as a hexadecimal group. */
  lemma DottedReadShort(s: string)
    requires Shaped(s) && !Part(s, '.') && forall i :: !PairAt(s, i)
    ensures Ipv6(s) == Ipv6(s[..Find(s, '.')])
  {
    hide Ipv6, Split, All, HexPrefix, Assembled, AddressChars, Shaped, Value, Find, DotsLast;
    var cut := s[..Find(s, '.')];
    ShapedChars(s);
    CutShaped(s);
    forall i
      ensures !PairAt(cut, i)
    {
      assert !PairAt(s, i);
    }
    WithoutPair(s);
    WithoutPair(cut);
    CutParts(s);
    var parts, parts' := Split(s, ':'), Split(cut, ':');
    PrefixCut(parts[|parts| - 1]);
    AllSnoc(parts, Group);
    AllSnoc(parts', Group);
  }

  lemma CutShaped(s: string)
    requires Shaped(s) && !Part(s, '.')
    ensures 0 < Find(s, '.') < |s| && Shaped(s[..Find(s, '.')])
  {
    hide Dotted;
    var dot := Find(s, '.');
    ShapedChars(s);
    var k :| 1 <= k <= |s| && HeadChars(s[..k]) && (k == |s| || Dotted(s[k..]));
    assert s[..k][0] == s[0];
    assert s[..dot][..dot] == s[..dot];
    assert HeadChars(s[..dot]);
  }

  // ----- numbers in print

  function Power(radix: nat, n: nat): nat {
    if n == 0 then 1 else radix * Power(radix, n - 1)
  }

  /** A number of one to four hexadecimal digits, each in the case asked for. */
  datatype PrintedWord = PrintedWord(word: nat, upper: seq<bool>)
  {
    predicate Fits() {
      1 <= |upper| <= 4 && word < Power(16, |upper|)
    }
  }

  /** A byte in as many decimal digits. */
  datatype PrintedByte = PrintedByte(byte: nat, width: nat)
  {
    predicate Fits() {
      1 <= width <= 3 && byte < Power(10, width) && byte <= 255
    }
  }

  function Hexadecimal(w: nat, upper: seq<bool>): (s: string)
    ensures |s| == |upper|
  {
    if upper == [] then ""
    else
      var last := |upper| - 1;
      Hexadecimal(w / 16, upper[..last]) + [if upper[last] then "0123456789ABCDEF"[w % 16] else "0123456789abcdef"[w % 16]]
  }

  function Decimal(b: nat, width: nat): (s: string)
    ensures |s| == width && Digits(s)
  {
    if width == 0 then "" else Decimal(b / 10, width - 1) + ["0123456789"[b % 10]]
  }

  function WordTexts(ps: seq<PrintedWord>): (texts: seq<string>)
    ensures |texts| == |ps|
  {
    seq(|ps|, i requires 0 <= i < |ps| => Hexadecimal(ps[i].word, ps[i].upper))
  }

  function WordsOf(ps: seq<PrintedWord>): (words: seq<nat>)
    ensures |words| == |ps|
  {
    seq(|ps|, i requires 0 <= i < |ps| => ps[i].word)
  }

  function ByteTexts(ps: seq<PrintedByte>): (texts: seq<string>)
    ensures |texts| == |ps|
  {
    seq(|ps|, i requires 0 <= i < |ps| => Decimal(ps[i].byte, ps[i].width))
  }

  function BytesOf(ps: seq<PrintedByte>): (bytes: seq<int>)
    ensures |bytes| == |ps|
  {
    seq(|ps|, i requires 0 <= i < |ps| => ps[i].byte)
  }

  /** Which characters are digits, and what they are worth. */
  lemma DigitCharacters(c: char, v: nat)
    requires v < 16
    ensures HexDigit(c) <==> c in {'0', '1', '2', '3', '4', '5', '6', '7', '8', '9',
                                   'a', 'b', 'c', 'd', 'e', 'f', 'A', 'B', 'C', 'D', 'E', 'F'}
    ensures Digit(c) <==> c in {'0', '1', '2', '3', '4', '5', '6', '7', '8', '9'}
    ensures HexDigit("0123456789ABCDEF"[v]) && DigitValue("0123456789ABCDEF"[v]) == v
    ensures HexDigit("0123456789abcdef"[v]) && DigitValue("0123456789abcdef"[v]) == v
    ensures v < 10 ==> Digit("0123456789"[v]) && DigitValue("0123456789"[v]) == v
  {
  }

  lemma ValueSnoc(s: string, c: char, radix: nat)
    requires HexDigits(s) && HexDigit(c)
    ensures Value(s + [c], radix) == radix * Value(s, radix) + DigitValue(c)
  {
    assert (s + [c])[..|s|] == s;
  }

  lemma {:induction false} HexadecimalReads(w: nat, upper: seq<bool>)
    requires w < Power(16, |upper|)
    ensures var s := Hexadecimal(w, upper); HexDigits(s) && Value(s, 16) == w
    decreases |upper|
  {
    if upper != [] {
      var last := |upper| - 1;
      HexadecimalReads(w / 16, upper[..last]);
      DigitCharacters('0', w % 16);
      ValueSnoc(Hexadecimal(w / 16, upper[..last]),
                if upper[last] then "0123456789ABCDEF"[w % 16] else "0123456789abcdef"[w % 16], 16);
    }
  }

  lemma {:induction false} DecimalReads(b: nat, width: nat)
    requires b < Power(10, width)
    ensures var s := Decimal(b, width); Digits(s) && Value(s, 10) == b
  {
    if width > 0 {
      DecimalReads(b / 10, width - 1);
      DigitCharacters('0', b % 10);
      ValueSnoc(Decimal(b / 10, width - 1), "0123456789"[b % 10], 10);
    }
  }

  /** Every text of digits is the decimal of its value, with as many digits. */
  lemma {:induction false} DecimalOf(s: string)
    requires Digits(s)
    ensures Value(s, 10) < Power(10, |s|) && Decimal(Value(s, 10), |s|) == s
  {
    if s != "" {
      var before, v := s[..|s| - 1], DigitValue(s[|s| - 1]);
      DecimalOf(before);
      DigitCharacters(s[|s| - 1], v);
      assert (10 * Value(before, 10) + v) / 10 == Value(before, 10) && (10 * Value(before, 10) + v) % 10 == v;
      assert s == before + [s[|s| - 1]];
    }
  }

  // ----- addresses in print

  /** Four bytes in decimal are a dotted text that is read as these bytes. */
  lemma QuadPrinted(ps: seq<PrintedByte>)
    requires |ps| == 4 && forall i :: 0 <= i < 4 ==> ps[i].Fits()
    ensures var s := Join(ByteTexts(ps), "."); Quad(s) && Ipv4(s) == Some(BytesOf(ps)) && TailBytes(Some(s)) == BytesOf(ps)
  {
    hide Decimal, Value, Join, All;
    var texts, s := ByteTexts(ps), Join(ByteTexts(ps), ".");
    forall i | 0 <= i < 4
      ensures Digits(texts[i]) && Value(texts[i], 10) == ps[i].byte && Byte(texts[i]) == Some([ps[i].byte])
      ensures Part(texts[i], '.')
    {
      DecimalReads(ps[i].byte, ps[i].width);
      ByteValue(texts[i]);
    }
    SplitJoin(texts, '.');
    FourNumbers(texts, Byte);
    assert BytesOf(ps) == [ps[0].byte, ps[1].byte, ps[2].byte, ps[3].byte];
  }

  /** A dotted text is read if and only if it is four bytes in print, of one to three digits each, and as these. */
  lemma Ipv4Exactly(s: string, bytes: seq<int>)
    ensures Ipv4(s) == Some(bytes) <==>
            exists ps: seq<PrintedByte> :: |ps| == 4 && (forall i :: 0 <= i < 4 ==> ps[i].Fits())
                                           && s == Join(ByteTexts(ps), ".") && bytes == BytesOf(ps)
  {
    hide Decimal, Value, Join, All, Split, Power;
    forall ps: seq<PrintedByte> | |ps| == 4 && (forall i :: 0 <= i < 4 ==> ps[i].Fits()) && s == Join(ByteTexts(ps), ".")
      ensures Ipv4(s) == Some(BytesOf(ps))
    {
      QuadPrinted(ps);
    }
    if Ipv4(s) == Some(bytes) {
      var parts := Split(s, '.');
      forall i | 0 <= i < 4
        ensures Byte(parts[i]).Some?
      {
        if Byte(parts[i]).None? {
          AllNone(parts, Byte, i);
        }
      }
      var ps := seq(4, i requires 0 <= i < 4 => PrintedByte(Value(parts[i], 10), |parts[i]|));
      forall i | 0 <= i < 4
        ensures ps[i].Fits() && ByteTexts(ps)[i] == parts[i]
      {
        DecimalOf(parts[i]);
      }
      assert ByteTexts(ps) == parts;
      QuadPrinted(ps);
    }
  }

  lemma WordsPrinted(ps: seq<PrintedWord>)
    requires forall i :: 0 <= i < |ps| ==> ps[i].Fits()
    ensures var texts := WordTexts(ps);
            (forall g :: g in texts ==> HexGroup(g)) && GroupBytes(texts) == BigEndian(WordsOf(ps))
  {
    hide Hexadecimal, Value, GroupBytes, BigEndian, Power;
    var texts := WordTexts(ps);
    forall i | 0 <= i < |ps|
      ensures HexGroup(texts[i]) && |texts[i]| <= 4 && Value(texts[i], 16) == ps[i].word
    {
      HexadecimalReads(ps[i].word, ps[i].upper);
    }
    ShortBytes(texts);
    assert Values(texts) == WordsOf(ps);
  }

  /** Eight words come back, whatever the case of their digits, with leading zeros or without. */
  lemma PrintedRoundTrip(words: seq<PrintedWord>)
    requires |words| == 8 && forall i :: 0 <= i < 8 ==> words[i].Fits()
    ensures Ipv6(Join(WordTexts(words), ":")) == Some(BigEndian(WordsOf(words)))
  {
    hide Ipv6, BigEndian, GroupBytes, HexGroup, WordTexts, WordsOf;
    WordsPrinted(words);
    ReadsText(Full(WordTexts(words)));
    FullBytes(BigEndian(WordsOf(words)));
  }

  /** So do up to seven with a double colon among them, which stands for zeros, and the four bytes of a dotted
      tail. */
  lemma PrintedGap(left: seq<PrintedWord>, right: seq<PrintedWord>, tail: Option<seq<PrintedByte>>)
    requires forall i :: 0 <= i < |left| ==> left[i].Fits()
    requires forall i :: 0 <= i < |right| ==> right[i].Fits()
    requires tail.Some? ==> |tail.value| == 4 && forall i :: 0 <= i < 4 ==> tail.value[i].Fits()
    requires |left| + |right| + (if tail.Some? then 2 else 0) <= 7
    ensures var dotted := if tail.Some? then [Join(ByteTexts(tail.value), ".")] else [];
            var bytes := BigEndian(WordsOf(right)) + if tail.Some? then BytesOf(tail.value) else [];
            Ipv6(Join(WordTexts(left), ":") + "::" + Join(WordTexts(right) + dotted, ":")) ==
            Some(BigEndian(WordsOf(left)) + seq(16 - 2 * |left| - |bytes|, _ => 0) + bytes)
  {
    hide Ipv6, BigEndian, GroupBytes, HexGroup, WordTexts, WordsOf, Join, TailBytes, Quad;
    WordsPrinted(left);
    WordsPrinted(right);
    if tail.Some? {
      QuadPrinted(tail.value);
    }
    var text := if tail.Some? then Some(Join(ByteTexts(tail.value), ".")) else None;
    ReadsText(Gap(WordTexts(left), WordTexts(right), text));
    NoTail();
    var bytes := BigEndian(WordsOf(right)) + TailBytes(text);
    GapBytes(BigEndian(WordsOf(left)), bytes, 16 - 2 * |left| - |bytes|);
  }

  lemma NoTail()
    ensures TailBytes(None) == []
  {
  }

  lemma DecimalSnoc(b: nat, width: nat)
    requires width > 0
    ensures Value(Decimal(b, width), 16) == 16 * Value(Decimal(b / 10, width - 1), 16) + b % 10
  {
    hide Value;
    DigitCharacters('0', b % 10);
    ValueSnoc(Decimal(b / 10, width - 1), "0123456789"[b % 10], 16);
  }

  lemma NoDigits()
    ensures Value(Decimal(0, 0), 16) == 0
  {
  }

  /** Digits of a decimal read as hexadecimal ones. */
  lemma {:induction false} MisreadDigits(b: nat, width: nat)
    requires width <= 3 && b < Power(10, width)
    ensures var h := Value(Decimal(b, width), 16);
            h == 256 * (b / 100) + 16 * (b / 10 % 10) + b % 10 && b / 100 < 10
  {
    hide Value, Decimal, Digits, HexDigits, HexDigit, Digit;
    if width == 0 {
      NoDigits();
    } else {
      DecimalSnoc(b, width);
      MisreadDigits(b / 10, width - 1);
      WidthBound(b, width);
      ThreeDigits(b);
    }
  }

  lemma ThreeDigits(b: nat)
    requires b < 1000
    ensures 16 * (256 * (b / 10 / 100) + 16 * (b / 10 / 10 % 10) + b / 10 % 10) + b % 10 ==
            256 * (b / 100) + 16 * (b / 10 % 10) + b % 10
  {
    assert b / 10 / 100 == 0 && b / 10 / 10 == b / 100 < 10;
  }

  lemma WidthBound(b: nat, width: nat)
    requires 0 < width <= 3 && b < Power(10, width)
    ensures b < 1000 && (width <= 2 ==> b < 100) && (width == 1 ==> b < 10)
  {
    assert Power(10, 1) == 10 && Power(10, 2) == 100 && Power(10, 3) == 1000;
  }

  /** Six words with a dotted tail after a single colon are not misread exactly if all four bytes are zero. */
  lemma MixedForm(words: seq<PrintedWord>, tail: seq<PrintedByte>)
    requires |words| == 6 && forall i :: 0 <= i < 6 ==> words[i].Fits()
    requires |tail| == 4 && forall i :: 0 <= i < 4 ==> tail[i].Fits()
    ensures Ipv6(Join(WordTexts(words), ":") + ":" + Join(ByteTexts(tail), ".")) == Some(BigEndian(WordsOf(words)) + BytesOf(tail))
            <==> BytesOf(tail) == [0, 0, 0, 0]
  {
    hide Ipv6, WordTexts, WordsOf, ByteTexts, BytesOf, Join, BigEndian, Value, Decimal, GroupBytes, Int32, Assembled, HexGroup;
    var b := tail[0].byte;
    var first, texts := Decimal(b, tail[0].width), WordTexts(words);
    WordsPrinted(words);
    MixedText(words, tail);
    MisreadDigits(b, tail[0].width);
    DecimalReads(b, tail[0].width);
    MixedGroups(texts, first);
    var h := Value(first, 16);
    MixedBytes(BigEndian(WordsOf(words)), h);
    HighByte(h);
    TailBytesOf(tail);
    var read := BigEndian(WordsOf(words)) + [h / 256, h % 256, 0, 0];
    assert read[12..] == [h / 256, h % 256, 0, 0];
    assert (BigEndian(WordsOf(words)) + BytesOf(tail))[12..] == BytesOf(tail);
  }

  lemma TailBytesOf(tail: seq<PrintedByte>)
    requires |tail| == 4
    ensures BytesOf(tail) == [tail[0].byte, tail[1].byte, tail[2].byte, tail[3].byte]
  {
  }

  lemma MixedBytes(bytes: seq<int>, h: nat)
    requires |bytes| == 12 && h < 65536
    ensures Assembled(bytes + [Int32(h / 256), h % 256], []) == Some(bytes + [h / 256, h % 256, 0, 0])
  {
    assert Zeros(2) == [0, 0];
    assert bytes + [h / 256, h % 256] + [0, 0] + [] == bytes + [h / 256, h % 256, 0, 0];
  }

  lemma MixedGroups(texts: seq<string>, first: string)
    requires (forall g :: g in texts ==> HexGroup(g)) && first != "" && Digits(first)
    ensures HexGroup(first)
    ensures Ipv6(Join(texts + [first], ":")) ==
            Assembled(GroupBytes(texts) + [Int32(Value(first, 16) / 256), Value(first, 16) % 256], [])
  {
    hide Ipv6, Assembled, Join, Value, Int32;
    var all := texts + [first];
    assert all[..|texts|] == texts && all[|texts|] == first;
    assert first in all;
    assert forall g :: g in all ==> g == first || g in texts;
    ReadsText(Full(all));
  }

  /** Such a text is read up to its first dot. */
  lemma MixedText(words: seq<PrintedWord>, tail: seq<PrintedByte>)
    requires words != [] && forall i :: 0 <= i < |words| ==> words[i].Fits()
    requires |tail| == 4 && forall i :: 0 <= i < 4 ==> tail[i].Fits()
    ensures Ipv6(Join(WordTexts(words), ":") + ":" + Join(ByteTexts(tail), ".")) ==
            Ipv6(Join(WordTexts(words) + [Decimal(tail[0].byte, tail[0].width)], ":"))
  {
    hide Ipv6, BigEndian, Value, Decimal, GroupBytes, Dotted, Shaped, Join, WordTexts, ByteTexts, Quad, HexGroup, Ipv4;
    var texts, quad, first := WordTexts(words), Join(ByteTexts(tail), "."), Decimal(tail[0].byte, tail[0].width);
    WordsPrinted(words);
    QuadPrinted(tail);
    GroupsShaped(texts);
    QuadReads(quad);
    JoinSnoc(texts, quad, ":");
    JoinSnoc(texts, first, ":");
    JoinedParts(texts + [quad]);
    var head := Join(texts, ":") + ":";
    var s := head + quad;
    MixedShaped(head, quad);
    QuadStart(tail);
    FirstDot(head, first, quad);
    assert s[..|head| + |first|] == head + first;
    DottedReadShort(s);
  }

  lemma MixedShaped(head: string, quad: string)
    requires head != "" && HeadChars(head) && Quad(quad)
    ensures Shaped(head + quad)
  {
    var s := head + quad;
    assert s[..|head|] == head && s[|head|..] == quad;
  }

  lemma QuadStart(tail: seq<PrintedByte>)
    requires |tail| == 4 && forall i :: 0 <= i < 4 ==> tail[i].Fits()
    ensures var first, quad := Decimal(tail[0].byte, tail[0].width), Join(ByteTexts(tail), ".");
            Digits(first) && |first| < |quad| && quad[..|first|] == first && quad[|first|] == '.'
  {
    hide Decimal;
    DecimalReads(tail[0].byte, tail[0].width);
    var texts := ByteTexts(tail);
    assert Join(texts, ".") == texts[0] + "." + Join(texts[1..], ".");
  }

  lemma FirstDot(head: string, first: string, quad: string)
    requires HeadChars(head) && Digits(first) && |first| < |quad| && quad[..|first|] == first && quad[|first|] == '.'
    ensures var s := head + quad; Find(s, '.') == |head| + |first| < |s| && !Part(s, '.')
  {
    var s, n := head + quad, |head| + |first|;
    assert s[n] == '.';
    forall i | 0 <= i < n
      ensures s[i] != '.'
    {
      if i >= |head| {
        assert s[i] == quad[..|first|][i - |head|];
      }
    }
    FindAt(s, '.', n);
  }

  /** Nothing else is let in. */
  lemma AddressCharacters(s: string, i: nat)
    requires i < |s|
    ensures Ipv4(s).Some? ==> s[i] in {'0', '1', '2', '3', '4', '5', '6', '7', '8', '9', '.'}
    ensures Ipv6(s).Some? ==> s[i] in {'0', '1', '2', '3', '4', '5', '6', '7', '8', '9', 'a', 'b', 'c', 'd', 'e', 'f',
                                       'A', 'B', 'C', 'D', 'E', 'F', ':', '.'}
  {
    hide Dotted, All, HexDigit, Digit;
    DigitCharacters(s[i], 0);
    if Ipv4(s).Some? {
      FourParts(s);
    }
    if Ipv6(s).Some? {
      var k :| 1 <= k <= |s| && HeadChars(s[..k]) && (k == |s| || Dotted(s[k..]));
      if k <= i {
        FourParts(s[k..]);
        assert s[k..][i - k] == s[i];
      } else {
        assert s[..k][i] == s[i];
      }
    }
  }

  /** One group alone, of any length, and eight groups with a double colon after them are let in too. */
  lemma LooselyAccepted(g: string, groups: seq<string>)
    requires HexGroup(g) && |groups| == 8 && forall h :: h in groups ==> HexGroup(h)
    ensures Ipv6(g) == Some(GroupBytes([g]) + Zeros(14))
    ensures Ipv6(Join(groups, ":") + "::") == Some(GroupBytes(groups))
  {
    hide Ipv6, GroupBytes;
    ReadsText(Full([g]));
    assert GroupBytes([g]) + Zeros(14) + [] == GroupBytes([g]) + Zeros(14);
    var a := Gap(groups, [], None);
    ReadsText(a);
    NoGroups();
    FullBytes(GroupBytes(groups));
    assert a.Text() == Join(groups, ":") + "::" + "" == Join(groups, ":") + "::";
  }

  lemma NoGroups()
    ensures GroupBytes([]) + TailBytes(None) == []
  {
  }
}
