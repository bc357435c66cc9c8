/** `glob_pattern_t`: patterns with `*`, `?`, character classes and escapes. */
module Globs {
  import opened Bytes

  const STAR: Byte := 42
  const QUESTION: Byte := 63
  const OPEN: Byte := 91
  const CLOSE: Byte := 93
  const BACKSLASH: Byte := 92
  const CARET: Byte := 94
  const BANG: Byte := 33
  const DASH: Byte := 45

  datatype Range = Range(first: Byte, last: Byte)

  datatype Segment =
    | Star
    | Question
    | CharClass(negate: bool, chars: seq<Byte>, ranges: seq<Range>)
    | Literal(byte: Byte)

  // ------------------------------------------------------------------ the language of a pattern

  predicate InClass(seg: Segment, b: Byte)
    requires seg.CharClass?
  {
    (b in seg.chars || exists r | r in seg.ranges :: r.first <= b <= r.last) != seg.negate
  }

  /** The strings that one segment stands for. */
  predicate Fits(seg: Segment, part: Key) {
    match seg
    case Star => true
    case Question => |part| == 1
    case CharClass(_, _, _) => |part| == 1 && InClass(seg, part[0])
    case Literal(b) => part == [b]
  }

  function Concat(parts: seq<Key>): Key {
    if parts == [] then [] else parts[0] + Concat(parts[1..])
  }

  ghost predicate Splits(segs: seq<Segment>, parts: seq<Key>) {
    |parts| == |segs| && forall i :: 0 <= i < |segs| ==> Fits(segs[i], parts[i])
  }

  /** A string matches if it can be cut into one part for each segment. */
  ghost predicate Matches(segs: seq<Segment>, s: Key) {
    exists parts :: Splits(segs, parts) && Concat(parts) == s
  }

  /** The first segment takes the first `k` bytes. */
  ghost predicate TakesFirst(segs: seq<Segment>, s: Key, k: nat)
    requires segs != [] && k <= |s|
  {
    Fits(segs[0], s[..k]) && Matches(segs[1..], s[k..])
  }

  lemma MatchesNone(s: Key)
    ensures Matches([], s) <==> s == []
  {
    if s == [] {
      assert Splits([], []) && Concat([]) == s;
    }
    if Matches([], s) {
      var parts :| Splits([], parts) && Concat(parts) == s;
      assert parts == [];
    }
  }

  lemma MatchesFirst(segs: seq<Segment>, s: Key)
    requires segs != []
    ensures Matches(segs, s) <==> exists k: nat :: k <= |s| && TakesFirst(segs, s, k)
  {
    if Matches(segs, s) {
      var parts :| Splits(segs, parts) && Concat(parts) == s;
      var k := |parts[0]|;
      assert s[..k] == parts[0] && s[k..] == Concat(parts[1..]);
      assert Splits(segs[1..], parts[1..]);
      assert TakesFirst(segs, s, k);
    }
    if exists k: nat :: k <= |s| && TakesFirst(segs, s, k) {
      var k: nat :| k <= |s| && TakesFirst(segs, s, k);
      var rest :| Splits(segs[1..], rest) && Concat(rest) == s[k..];
      var parts := [s[..k]] + rest;
      assert parts[1..] == rest && Concat(parts) == s[..k] + s[k..] == s;
      forall i | 0 <= i < |segs| ensures Fits(segs[i], parts[i]) {
        if i > 0 {
          assert segs[i] == segs[1..][i - 1];
        }
      }
      assert Splits(segs, parts);
    }
  }

  /** A segment other than the star takes one byte. */
  lemma MatchesOne(segs: seq<Segment>, s: Key)
    requires segs != [] && segs[0] != Star
    ensures Matches(segs, s) <==> s != [] && Fits(segs[0], s[..1]) && Matches(segs[1..], s[1..])
  {
    MatchesFirst(segs, s);
    assert forall part | Fits(segs[0], part) :: |part| == 1;
    if s != [] && Fits(segs[0], s[..1]) && Matches(segs[1..], s[1..]) {
      assert TakesFirst(segs, s, 1);
    }
  }

  lemma MatchesStar(segs: seq<Segment>, s: Key)
    requires segs != [] && segs[0] == Star
    ensures Matches(segs, s) <==> exists k: nat :: k <= |s| && Matches(segs[1..], s[k..])
  {
    MatchesFirst(segs, s);
    if exists k: nat :: k <= |s| && Matches(segs[1..], s[k..]) {
      var k: nat :| k <= |s| && Matches(segs[1..], s[k..]);
      assert TakesFirst(segs, s, k);
    }
    if exists k: nat :: k <= |s| && TakesFirst(segs, s, k) {
      var k: nat :| k <= |s| && TakesFirst(segs, s, k);
      assert Matches(segs[1..], s[k..]);
    }
  }

  // ------------------------------------------------------------------ matching

  method CharClassMatch(b: Byte, seg: Segment) returns (r: bool)
    requires seg.CharClass?
    ensures r <==> InClass(seg, b)
    ensures !seg.negate ==> (r <==> b in seg.chars || exists x | x in seg.ranges :: x.first <= b <= x.last)
    ensures seg.negate ==> (r <==> b !in seg.chars && forall x | x in seg.ranges :: b < x.first || x.last < b)
  {
    var matched, i := false, 0;
    while i < |seg.chars| && !matched
      invariant 0 <= i <= |seg.chars| && (matched ==> b in seg.chars) && (!matched ==> b !in seg.chars[..i])
      decreases |seg.chars| - i, !matched
    {
      if b == seg.chars[i] {
        matched := true;
      } else {
        i := i + 1;
      }
    }
    if !matched {
      assert seg.chars[..i] == seg.chars;
      i := 0;
      while i < |seg.ranges| && !matched
        invariant 0 <= i <= |seg.ranges|
        invariant matched ==> exists r | r in seg.ranges :: r.first <= b <= r.last
        invariant !matched ==> forall j :: 0 <= j < i ==> !(seg.ranges[j].first <= b <= seg.ranges[j].last)
        decreases |seg.ranges| - i, !matched
      {
        if b >= seg.ranges[i].first && b <= seg.ranges[i].last {
          assert seg.ranges[i] in seg.ranges;
          matched := true;
        } else {
          i := i + 1;
        }
      }
    }
    r := if seg.negate then !matched else matched;
  }

  /** The backtracking matcher accepts exactly the language of the segments that are left. */
  method MatchImpl(segs: seq<Segment>, data: Key, pos: nat, idx: nat) returns (r: bool)
    requires pos <= |data| && idx <= |segs|
    ensures r <==> Matches(segs[idx..], data[pos..])
    decreases |segs| - idx, 0
  {
    if idx >= |segs| {
      MatchesNone(data[pos..]);
      return pos >= |data|;
    }
    var seg := segs[idx];
    ghost var left, s := segs[idx..], data[pos..];
    assert left[0] == seg && left[1..] == segs[idx + 1..];
    if seg == Star {
      MatchesStar(left, s);
      r := MatchStar(segs, data, pos, idx);
      return;
    }
    MatchesOne(left, s);
    if pos >= |data| {
      return false;
    }
    assert s[..1] == [data[pos]] && s[1..] == data[pos + 1..];
    if seg.CharClass? {
      var matched := CharClassMatch(data[pos], seg);
      if !matched {
        return false;
      }
    } else if seg.Literal? && data[pos] != seg.byte {
      return false;
    }
    r := MatchImpl(segs, data, pos + 1, idx + 1);
  }

  /** The star tries to take nothing, then one byte, two bytes, and so on. */
  method MatchStar(segs: seq<Segment>, data: Key, pos: nat, idx: nat) returns (r: bool)
    requires pos <= |data| && idx < |segs|
    ensures r <==> exists k: nat :: k <= |data[pos..]| && Matches(segs[idx + 1..], data[pos..][k..])
    decreases |segs| - idx - 1, 1
  {
    ghost var s, rest := data[pos..], segs[idx + 1..];
    r := MatchImpl(segs, data, pos, idx + 1);
    assert s[0..] == s;
    if r {
      return;
    }
    var i := pos;
    while i < |data|
      invariant pos <= i <= |data|
      invariant forall k: nat :: k <= i - pos ==> !Matches(rest, s[k..])
    {
      r := MatchImpl(segs, data, i + 1, idx + 1);
      assert data[i + 1..] == s[i + 1 - pos..];
      if r {
        return;
      }
      i := i + 1;
    }
  }

  // ------------------------------------------------------------------ compilation

  /** The members of a class up to its closing bracket, with what comes after. */
  function Items(p: Key, chars: seq<Byte>, ranges: seq<Range>): Option<(seq<Byte>, seq<Range>, Key)> {
    if p == [] then None
    else if p[0] == CLOSE then Some((chars, ranges, p[1..]))
    else if |p| > 2 && p[1] == DASH && p[2] != CLOSE then
      if p[0] > p[2] then None else Items(p[3..], chars, ranges + [Range(p[0], p[2])])
    else Items(p[1..], chars + [p[0]], ranges)
  }

  lemma {:induction false} ItemsShorter(p: Key, chars: seq<Byte>, ranges: seq<Range>)
    ensures var r := Items(p, chars, ranges); r.Some? ==> |r.value.2| < |p|
    decreases |p|
  {
    if p != [] && p[0] != CLOSE {
      if |p| > 2 && p[1] == DASH && p[2] != CLOSE {
        if p[0] <= p[2] {
          ItemsShorter(p[3..], chars, ranges + [Range(p[0], p[2])]);
        }
      } else {
        ItemsShorter(p[1..], chars + [p[0]], ranges);
      }
    }
  }

  function Negated(p: Key): bool {
    p != [] && (p[0] == CARET || p[0] == BANG)
  }

  /** The segments of a pattern; nothing if a class has no end or a range is the wrong way round. */
  function Compiled(p: Key): Option<seq<Segment>>
    decreases |p|
  {
    if p == [] then Some([])
    else if p[0] == STAR then Prefixed(Star, Compiled(p[1..]))
    else if p[0] == QUESTION then Prefixed(Question, Compiled(p[1..]))
    else if p[0] == OPEN then
      var negate := Negated(p[1..]);
      var body := if negate then p[2..] else p[1..];
      var items := Items(body, [], []);
      ItemsShorter(body, [], []);
      if items == None then None
      else Prefixed(CharClass(negate, items.value.0, items.value.1), Compiled(items.value.2))
    else if p[0] == BACKSLASH && |p| > 1 then Prefixed(Literal(p[1]), Compiled(p[2..]))
    else Prefixed(Literal(p[0]), Compiled(p[1..]))
  }

  function Prefixed(seg: Segment, segs: Option<seq<Segment>>): Option<seq<Segment>> {
    if segs.Some? then Some([seg] + segs.value) else None
  }

  function Behind(done: seq<Segment>, segs: Option<seq<Segment>>): Option<seq<Segment>> {
    if segs.Some? then Some(done + segs.value) else None
  }

  lemma BehindNothing(segs: Option<seq<Segment>>)
    ensures Behind([], segs) == segs
  {
    if segs.Some? {
      assert [] + segs.value == segs.value;
    }
  }

  lemma BehindPrefixed(done: seq<Segment>, seg: Segment, segs: Option<seq<Segment>>)
    ensures Behind(done, Prefixed(seg, segs)) == Behind(done + [seg], segs)
  {
    if segs.Some? {
      assert done + ([seg] + segs.value) == (done + [seg]) + segs.value;
    }
  }

  /** Reads a class that starts at `i`; the result is the position of its closing bracket. */
  method ParseCharClass(p: Key, start: nat) returns (end: Option<nat>, seg: Segment)
    requires start < |p| && p[start] == OPEN
    ensures seg.CharClass? && seg.negate == Negated(p[start + 1..])
    ensures end.Some? ==> start < end.value < |p|
    ensures var items := Items(if seg.negate then p[start + 2..] else p[start + 1..], [], []);
      && (end.Some? <==> items.Some?)
      && (end.Some? ==> items.value == (seg.chars, seg.ranges, p[end.value + 1..]))
  {
    var i := start + 1;
    var negate, chars, ranges := false, [], [];
    if i >= |p| {
      return None, CharClass(negate, chars, ranges);
    }
    if p[i] == CARET || p[i] == BANG {
      negate := true;
      i := i + 1;
    }
    ghost var body := p[i..];
    while i < |p| && p[i] != CLOSE
      invariant start < i <= |p|
      invariant Items(p[i..], chars, ranges) == Items(body, [], [])
    {
      if i + 2 < |p| && p[i + 1] == DASH && p[i + 2] != CLOSE {
        assert p[i..][3..] == p[i + 3..];
        if p[i] > p[i + 2] {
          return None, CharClass(negate, chars, ranges);
        }
        ranges := ranges + [Range(p[i], p[i + 2])];
        i := i + 3;
      } else {
        assert p[i..][1..] == p[i + 1..];
        chars := chars + [p[i]];
        i := i + 1;
      }
    }
    seg := CharClass(negate, chars, ranges);
    if i >= |p| {
      return None, seg;
    }
    assert p[i..][1..] == p[i + 1..];
    end := Some(i);
  }

  // ------------------------------------------------------------------ the syntax of patterns

  /** What a class may list: a byte, or a range of bytes. */
  datatype Member = Only(byte: Byte) | Span(first: Byte, last: Byte)

  function SpelledOne(m: Member): (text: Key)
    ensures text != []
  {
    match m
    case Only(b) => [b]
    case Span(first, last) => [first, DASH, last]
  }

  function Spelled(ms: seq<Member>): Key {
    if ms == [] then [] else SpelledOne(ms[0]) + Spelled(ms[1..])
  }

  function Onlys(ms: seq<Member>): seq<Byte> {
    if ms == [] then [] else (if ms[0].Only? then [ms[0].byte] else []) + Onlys(ms[1..])
  }

  function Spans(ms: seq<Member>): seq<Range> {
    if ms == [] then [] else (if ms[0].Span? then [Range(ms[0].first, ms[0].last)] else []) + Spans(ms[1..])
  }

  /** No member closes the class, no range is the wrong way round, no dash makes a range of its neighbours. */
  predicate Clear(ms: seq<Member>) {
    ms != [] ==>
      && Clear(ms[1..])
      && match ms[0] {
           case Only(b) => b != CLOSE && (|ms| > 1 && SpelledOne(ms[1])[0] == DASH ==> ms[1..] == [Only(DASH)])
           case Span(first, last) => first <= last && first != CLOSE && last != CLOSE
         }
  }

  /** A class: its opening, its members in any order, the closing bracket. */
  predicate SpelledClass(seg: Segment, open: Key, ms: seq<Member>, text: Key)
    requires seg.CharClass?
  {
    && Clear(ms) && seg.chars == Onlys(ms) && seg.ranges == Spans(ms)
    && text == open + Spelled(ms) + [CLOSE]
    && if seg.negate then open == [OPEN, CARET] || open == [OPEN, BANG] else open == [OPEN] && !Negated(Spelled(ms))
  }

  /** The texts of a segment. A backslash stands for itself only as the last byte of a pattern. */
  ghost predicate Writes(seg: Segment, text: Key, last: bool) {
    match seg
    case Star => text == [STAR]
    case Question => text == [QUESTION]
    case CharClass(_, _, _) => exists open, ms :: SpelledClass(seg, open, ms, text)
    case Literal(b) =>
      text == [BACKSLASH, b] || (text == [b] && b !in {STAR, QUESTION, OPEN} && (b == BACKSLASH ==> last))
  }

  ghost predicate Written(segs: seq<Segment>, texts: seq<Key>) {
    && |texts| == |segs|
    && forall i :: 0 <= i < |segs| ==> Writes(segs[i], texts[i], i == |segs| - 1)
  }

  /** A pattern is texts of its segments one after the other. */
  ghost predicate Spells(p: Key, segs: seq<Segment>) {
    exists texts :: Written(segs, texts) && Concat(texts) == p
  }

  /** One more member in front. */
  lemma MemberFirst(m: Member, rest: seq<Member>, tail: Key)
    ensures var ms := [m] + rest;
      && ms[0] == m && ms[1..] == rest
      && Spelled(ms) + [CLOSE] + tail == SpelledOne(m) + (Spelled(rest) + [CLOSE] + tail)
      && Onlys(ms) == (if m.Only? then [m.byte] else []) + Onlys(rest)
      && Spans(ms) == (if m.Span? then [Range(m.first, m.last)] else []) + Spans(rest)
  {
    assert ([m] + rest)[1..] == rest;
  }

  lemma Shift<T>(a: seq<T>, x: T, b: seq<T>)
    ensures a + [x] + b == a + ([x] + b)
  {
  }

  /** The members of a class are read as they were written. */
  lemma {:induction false} ItemsOf(ms: seq<Member>, tail: Key, chars: seq<Byte>, ranges: seq<Range>)
    requires Clear(ms)
    ensures Items(Spelled(ms) + [CLOSE] + tail, chars, ranges) == Some((chars + Onlys(ms), ranges + Spans(ms), tail))
    decreases |ms|
  {
    var p := Spelled(ms) + [CLOSE] + tail;
    if ms == [] {
      assert p == [CLOSE] + tail && p[1..] == tail && chars + [] == chars && ranges + [] == ranges;
    } else {
      var rest := Spelled(ms[1..]) + [CLOSE] + tail;
      assert ms == [ms[0]] + ms[1..];
      MemberFirst(ms[0], ms[1..], tail);
      match ms[0]
      case Only(b) =>
        assert p == [b] + rest && p[1..] == rest;
        NoRange(ms[1..], rest, tail);
        hide Spelled, Onlys, Spans;
        ItemsOf(ms[1..], tail, chars + [b], ranges);
        Shift(chars, b, Onlys(ms[1..]));
        assert [] + Spans(ms[1..]) == Spans(ms[1..]);
      case Span(first, last) =>
        hide Spelled, Onlys, Spans;
        assert p == [first, DASH, last] + rest && p[3..] == rest && p[0] == first && p[1] == DASH && p[2] == last;
        ItemsOf(ms[1..], tail, chars, ranges + [Range(first, last)]);
        Shift(ranges, Range(first, last), Spans(ms[1..]));
        assert [] + Onlys(ms[1..]) == Onlys(ms[1..]);
    }
  }

  /** Behind a single member no range is seen. */
  lemma NoRange(ms: seq<Member>, rest: Key, tail: Key)
    requires rest == Spelled(ms) + [CLOSE] + tail
    requires ms != [] && SpelledOne(ms[0])[0] == DASH ==> ms == [Only(DASH)]
    ensures !(|rest| > 1 && rest[0] == DASH && rest[1] != CLOSE)
  {
    if ms != [] {
      assert rest == SpelledOne(ms[0]) + (Spelled(ms[1..]) + [CLOSE] + tail);
      if ms == [Only(DASH)] {
        assert rest == [DASH] + ([CLOSE] + tail);
      }
    }
  }

  /** Whatever is read as the members of a class was written as such. */
  lemma {:induction false} ItemsSpell(p: Key, chars: seq<Byte>, ranges: seq<Range>) returns (ms: seq<Member>)
    requires Items(p, chars, ranges).Some?
    ensures Clear(ms)
    ensures var (cs, rs, tail) := Items(p, chars, ranges).value;
            p == Spelled(ms) + [CLOSE] + tail && cs == chars + Onlys(ms) && rs == ranges + Spans(ms)
    decreases |p|
  {
    var tail := Items(p, chars, ranges).value.2;
    if p[0] == CLOSE {
      ms := [];
      assert p == [CLOSE] + tail && chars + [] == chars && ranges + [] == ranges;
    } else if |p| > 2 && p[1] == DASH && p[2] != CLOSE {
      hide Spelled, Onlys, Spans;
      var rest := ItemsSpell(p[3..], chars, ranges + [Range(p[0], p[2])]);
      ms := [Span(p[0], p[2])] + rest;
      MemberFirst(ms[0], rest, tail);
      assert p == [p[0], DASH, p[2]] + p[3..];
      Shift(ranges, Range(p[0], p[2]), Spans(rest));
      assert [] + Onlys(rest) == Onlys(rest);
    } else {
      hide Spelled, Onlys, Spans;
      var rest := ItemsSpell(p[1..], chars + [p[0]], ranges);
      ms := [Only(p[0])] + rest;
      MemberFirst(ms[0], rest, tail);
      assert p == [p[0]] + p[1..];
      Shift(chars, p[0], Onlys(rest));
      assert [] + Spans(rest) == Spans(rest);
      if rest != [] && SpelledOne(rest[0])[0] == DASH {
        LoneDash(rest, p[1..], tail);
      }
    }
  }

  lemma LoneDash(ms: seq<Member>, p: Key, tail: Key)
    requires Clear(ms) && ms != [] && p == Spelled(ms) + [CLOSE] + tail
    requires SpelledOne(ms[0])[0] == DASH ==> |p| == 1 || p[1] == CLOSE
    ensures SpelledOne(ms[0])[0] == DASH ==> ms == [Only(DASH)]
  {
    assert ms == [ms[0]] + ms[1..];
    MemberFirst(ms[0], ms[1..], tail);
    if |ms| > 1 {
      assert Spelled(ms[1..])[0] == SpelledOne(ms[1])[0] != CLOSE;
    }
  }

  lemma CompiledOpen(p: Key, body: Key, seg: Segment, tail: Key)
    requires p != [] && p[0] == OPEN && seg.CharClass? && seg.negate == Negated(p[1..])
    requires body == if seg.negate then p[2..] else p[1..]
    requires Items(body, [], []) == Some((seg.chars, seg.ranges, tail))
    ensures Compiled(p) == Prefixed(seg, Compiled(tail))
  {
  }

  lemma CompiledClass(seg: Segment, open: Key, ms: seq<Member>, text: Key, tail: Key)
    requires seg.CharClass? && SpelledClass(seg, open, ms, text)
    ensures Compiled(text + tail) == Prefixed(seg, Compiled(tail))
  {
    ItemsOf(ms, tail, [], []);
    assert [] + Onlys(ms) == Onlys(ms) && [] + Spans(ms) == Spans(ms);
    hide Items, Spelled, Compiled, Clear, Onlys, Spans;
    OpenText(open, Spelled(ms), tail);
    CompiledOpen(text + tail, Spelled(ms) + [CLOSE] + tail, seg, tail);
  }

  lemma OpenText(open: Key, members: Key, tail: Key)
    requires open == [OPEN] || open == [OPEN, CARET] || open == [OPEN, BANG]
    requires |open| == 1 ==> !Negated(members)
    ensures var p, body := open + members + [CLOSE] + tail, members + [CLOSE] + tail;
            p[0] == OPEN && body == p[|open|..] && (Negated(p[1..]) <==> |open| == 2)
  {
  }

  /** A text of a segment compiles to the segment, in front of any rest. */
  lemma CompiledText(seg: Segment, text: Key, tail: Key)
    requires Writes(seg, text, tail == [])
    ensures text != [] && Compiled(text + tail) == Prefixed(seg, Compiled(tail))
  {
    var p := text + tail;
    if seg.CharClass? {
      var open, ms :| SpelledClass(seg, open, ms, text);
      CompiledClass(seg, open, ms, text, tail);
    } else if |text| == 1 {
      assert p[1..] == tail;
    } else {
      assert p[2..] == tail;
    }
  }

  /** The first text of a pattern that compiles. */
  lemma FirstText(p: Key) returns (text: Key)
    requires p != [] && Compiled(p).Some?
    ensures Compiled(p).value != [] && 0 < |text| <= |p| && text == p[..|text|]
    ensures Writes(Compiled(p).value[0], text, text == p)
    ensures Compiled(p[|text|..]) == Some(Compiled(p).value[1..])
  {
    if p[0] == OPEN {
      text := FirstClass(p);
    } else if p[0] == BACKSLASH && |p| > 1 {
      text := p[..2];
    } else {
      text := p[..1];
      assert p[0] == BACKSLASH ==> text == p;
    }
  }

  lemma FirstClass(p: Key) returns (text: Key)
    requires p != [] && Compiled(p).Some? && p[0] == OPEN
    ensures Compiled(p).value != [] && 0 < |text| <= |p| && text == p[..|text|]
    ensures Writes(Compiled(p).value[0], text, text == p)
    ensures Compiled(p[|text|..]) == Some(Compiled(p).value[1..])
  {
    var negate := Negated(p[1..]);
    var open, body := if negate then p[..2] else p[..1], if negate then p[2..] else p[1..];
    var (cs, rs, tail) := Items(body, [], []).value;
    CompiledOpen(p, body, CharClass(negate, cs, rs), tail);
    var ms := ItemsSpell(body, [], []);
    assert [] + Onlys(ms) == Onlys(ms) && [] + Spans(ms) == Spans(ms);
    hide Items, Spelled, Compiled, Clear, Onlys, Spans;
    text := open + Spelled(ms) + [CLOSE];
    ClassCut(p, negate, Spelled(ms), tail);
    assert SpelledClass(CharClass(negate, cs, rs), open, ms, text);
  }

  lemma ClassCut(p: Key, negate: bool, members: Key, tail: Key)
    requires p != [] && p[0] == OPEN && negate == Negated(p[1..])
    requires (if negate then p[2..] else p[1..]) == members + [CLOSE] + tail
    ensures var open := if negate then p[..2] else p[..1];
            var text := open + members + [CLOSE];
      && 0 < |text| <= |p| && text == p[..|text|] && p[|text|..] == tail
      && if negate then open == [OPEN, CARET] || open == [OPEN, BANG] else open == [OPEN] && !Negated(members)
  {
    var open := if negate then p[..2] else p[..1];
    assert p == open + (members + [CLOSE] + tail) == (open + members + [CLOSE]) + tail;
    assert negate ==> open == [p[0], p[1]] && p[1] == p[1..][0];
    assert !negate && members != [] ==> members[0] == p[1..][0];
  }

  /** A pattern compiles to the segments it is texts of, however each is written. */
  lemma {:induction false} CompileRoundTrip(segs: seq<Segment>, texts: seq<Key>)
    requires Written(segs, texts)
    ensures Compiled(Concat(texts)) == Some(segs) && (Concat(texts) == [] <==> segs == [])
    decreases |segs|
  {
    if segs != [] {
      var rest := texts[1..];
      assert Written(segs[1..], rest) by {
        forall i | 0 <= i < |segs| - 1 ensures Writes(segs[1..][i], rest[i], i == |segs| - 2) {
          assert Writes(segs[i + 1], texts[i + 1], i + 1 == |segs| - 1);
        }
      }
      CompileRoundTrip(segs[1..], rest);
      assert Writes(segs[0], texts[0], 0 == |segs| - 1);
      CompiledText(segs[0], texts[0], Concat(rest));
      assert [segs[0]] + segs[1..] == segs;
    }
  }

  lemma {:induction false} CompiledSpells(p: Key) returns (texts: seq<Key>)
    requires Compiled(p).Some?
    ensures Written(Compiled(p).value, texts) && Concat(texts) == p
    decreases |p|
  {
    if p == [] {
      texts := [];
    } else {
      var text := FirstText(p);
      var segs := Compiled(p).value;
      var rest := CompiledSpells(p[|text|..]);
      texts := [text] + rest;
      assert texts[1..] == rest && p == text + p[|text|..];
      assert segs == [segs[0]] + segs[1..];
      CompileRoundTrip(segs[1..], rest);
      assert text == p <==> |segs| == 1;
      forall i | 0 <= i < |segs| ensures Writes(segs[i], texts[i], i == |segs| - 1) {
        if i > 0 {
          assert Writes(segs[1..][i - 1], rest[i - 1], i - 1 == |segs[1..]| - 1);
        }
      }
    }
  }

  /** A pattern compiles to given segments iff it is texts of them; otherwise it is an error. */
  lemma CompiledIff(p: Key, segs: seq<Segment>)
    ensures Compiled(p) == Some(segs) <==> Spells(p, segs)
  {
    if Compiled(p) == Some(segs) {
      var texts := CompiledSpells(p);
      assert Written(segs, texts) && Concat(texts) == p;
    }
    if Spells(p, segs) {
      var texts :| Written(segs, texts) && Concat(texts) == p;
      CompileRoundTrip(segs, texts);
    }
  }

  lemma CompiledExactly(p: Key)
    ensures forall segs :: Compiled(p) == Some(segs) <==> Spells(p, segs)
  {
    forall segs ensures Compiled(p) == Some(segs) <==> Spells(p, segs) {
      CompiledIff(p, segs);
    }
  }

  /** Compiles a pattern: to the segments whose texts it is, or not at all if there are none. */
  method Compile(p: Key) returns (segs: Option<seq<Segment>>)
    ensures segs == Compiled(p)
    ensures forall want :: segs == Some(want) <==> Spells(p, want)
  {
    hide Spells, Items;
    CompiledExactly(p);
    var done: seq<Segment> := [];
    var i := 0;
    assert p[0..] == p;
    BehindNothing(Compiled(p));
    while i < |p|
      invariant 0 <= i <= |p|
      invariant Compiled(p) == Behind(done, Compiled(p[i..]))
      decreases |p| - i
    {
      var b := p[i];
      ghost var q := p[i..];
      assert q[1..] == p[i + 1..];
      if b == STAR {
        BehindPrefixed(done, Star, Compiled(p[i + 1..]));
        done := done + [Star];
      } else if b == QUESTION {
        BehindPrefixed(done, Question, Compiled(p[i + 1..]));
        done := done + [Question];
      } else if b == OPEN {
        assert |q| > 1 ==> q[2..] == p[i + 2..];
        var end, seg := ParseCharClass(p, i);
        if end == None {
          return None;
        }
        BehindPrefixed(done, seg, Compiled(p[end.value + 1..]));
        done := done + [seg];
        i := end.value;
      } else if b == BACKSLASH && i + 1 < |p| {
        assert q[2..] == p[i + 2..];
        i := i + 1;
        BehindPrefixed(done, Literal(p[i]), Compiled(p[i + 1..]));
        done := done + [Literal(p[i])];
      } else {
        BehindPrefixed(done, Literal(b), Compiled(p[i + 1..]));
        done := done + [Literal(b)];
      }
      i := i + 1;
    }
    assert p[i..] == [];
    assert done + [] == done;
    segs := Some(done);
  }

  // ------------------------------------------------------------------ patterns for given segments

  function Listed(ranges: seq<Range>, chars: seq<Byte>): seq<Member> {
    if ranges != [] then [Span(ranges[0].first, ranges[0].last)] + Listed(ranges[1..], chars)
    else if chars != [] then [Only(chars[0])] + Listed([], chars[1..])
    else []
  }

  function Text(seg: Segment): Key {
    match seg
    case Star => [STAR]
    case Question => [QUESTION]
    case CharClass(negate, chars, ranges) =>
      (if negate then [OPEN, CARET] else [OPEN]) + Spelled(Listed(ranges, chars)) + [CLOSE]
    case Literal(b) => [BACKSLASH, b]
  }

  function PatternOf(segs: seq<Segment>): Key {
    if segs == [] then [] else Text(segs[0]) + PatternOf(segs[1..])
  }

  /** Members written one after the other, none of which closes the class or makes a range of its neighbours. */
  predicate Plain(chars: seq<Byte>) {
    CLOSE !in chars && forall i :: 0 < i < |chars| - 1 ==> chars[i] != DASH
  }

  /** Classes whose ranges and then members the syntax has room for. */
  predicate Writable(seg: Segment) {
    seg.CharClass? ==>
      && Plain(seg.chars)
      && (forall r | r in seg.ranges :: r.first <= r.last && r.first != CLOSE && r.last != CLOSE)
      && (!seg.negate ==> !Negated(Spelled(Listed(seg.ranges, seg.chars))))
  }

  lemma {:induction false} ListedIs(ranges: seq<Range>, chars: seq<Byte>)
    requires Plain(chars)
    requires forall r | r in ranges :: r.first <= r.last && r.first != CLOSE && r.last != CLOSE
    ensures var ms := Listed(ranges, chars); Clear(ms) && Onlys(ms) == chars && Spans(ms) == ranges
    decreases |ranges|, |chars|
  {
    var ms := Listed(ranges, chars);
    if ranges != [] {
      assert ranges[0] in ranges && ranges == [ranges[0]] + ranges[1..];
      ListedIs(ranges[1..], chars);
      assert ms[1..] == Listed(ranges[1..], chars);
    } else if chars != [] {
      assert chars[0] in chars && chars == [chars[0]] + chars[1..];
      assert forall i :: 0 <= i < |chars| - 1 ==> chars[1..][i] == chars[i + 1];
      ListedIs([], chars[1..]);
      assert ms[1..] == Listed([], chars[1..]);
      if |chars| == 2 {
        assert chars[1..][1..] == [];
      }
    }
  }

  lemma TextWrites(seg: Segment)
    requires Writable(seg)
    ensures Writes(seg, Text(seg), false)
  {
    if seg.CharClass? {
      ListedIs(seg.ranges, seg.chars);
      hide Spelled, Listed, Clear, Onlys, Spans;
      var open := if seg.negate then [OPEN, CARET] else [OPEN];
      assert SpelledClass(seg, open, Listed(seg.ranges, seg.chars), Text(seg));
    }
  }

  /** Segments with writable classes have a pattern. */
  lemma {:induction false} PatternCompiles(segs: seq<Segment>)
    requires forall seg | seg in segs :: Writable(seg)
    ensures Compiled(PatternOf(segs)) == Some(segs)
  {
    if segs != [] {
      PatternCompiles(segs[1..]);
      TextWrites(segs[0]);
      CompiledText(segs[0], Text(segs[0]), PatternOf(segs[1..]));
      assert [segs[0]] + segs[1..] == segs;
    }
  }

  // ------------------------------------------------------------------ escaping

  function Escaped(s: Key): Key {
    if s == [] then [] else [BACKSLASH, s[0]] + Escaped(s[1..])
  }

  function Literals(s: Key): seq<Segment> {
    seq(|s|, i requires 0 <= i < |s| => Literal(s[i]))
  }

  lemma {:induction false} EscapedIs(s: Key)
    ensures Escaped(s) == PatternOf(Literals(s))
  {
    if s != [] {
      EscapedIs(s[1..]);
      assert Literals(s)[1..] == Literals(s[1..]);
    }
  }

  lemma {:induction false} LiteralsMatch(s: Key, t: Key)
    ensures Matches(Literals(s), t) <==> t == s
    decreases |s|
  {
    if s == [] {
      MatchesNone(t);
    } else {
      MatchesOne(Literals(s), t);
      assert Literals(s)[1..] == Literals(s[1..]);
      if t != [] {
        LiteralsMatch(s[1..], t[1..]);
        assert t == t[..1] + t[1..] && s == [s[0]] + s[1..];
        assert t == s <==> t[..1] == [s[0]] && t[1..] == s[1..];
      }
    }
  }

  /** The pattern that escapes every byte of a string matches that string and no other. */
  lemma EscapeMatches(s: Key, t: Key)
    ensures Compiled(Escaped(s)) == Some(Literals(s)) && (Matches(Literals(s), t) <==> t == s)
  {
    EscapedIs(s);
    PatternCompiles(Literals(s));
    LiteralsMatch(s, t);
  }

  /** A pattern without special bytes matches the string it is and no other. */
  lemma OrdinaryMatches(s: Key, t: Key)
    requires forall b | b in s :: b !in {STAR, QUESTION, OPEN, BACKSLASH}
    ensures Compiled(s) == Some(Literals(s)) && (Matches(Literals(s), t) <==> t == s)
  {
    OrdinaryCompiled(s);
    LiteralsMatch(s, t);
  }

  lemma {:induction false} OrdinaryCompiled(s: Key)
    requires forall b | b in s :: b !in {STAR, QUESTION, OPEN, BACKSLASH}
    ensures Compiled(s) == Some(Literals(s))
    decreases |s|
  {
    if s != [] {
      assert s[0] in s && s == [s[0]] + s[1..];
      assert forall b | b in s[1..] :: b in s;
      OrdinaryCompiled(s[1..]);
      CompiledText(Literal(s[0]), [s[0]], s[1..]);
      assert Literals(s) == [Literal(s[0])] + Literals(s[1..]);
    }
  }
}
