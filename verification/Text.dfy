/** Substring search, splitting, joining and trimming as the harness scripts use
    them (`includes`, `split(sep).join(token)`, `trim`). Everything but `Trim` is
    generic in the element type. */
module Text {

  datatype Option<+T> = None | Some(value: T)

  predicate At<T(==)>(s: seq<T>, w: seq<T>, i: nat) {
    i + |w| <= |s| && s[i..i + |w|] == w
  }

  /** `s.includes(w)` */
  predicate Contains<T(==)>(s: seq<T>, w: seq<T>) {
    exists i :: 0 <= i <= |s| && At(s, w, i)
  }

  lemma ContainsPart<T>(x: seq<T>, s: seq<T>, y: seq<T>, w: seq<T>)
    requires Contains(s, w)
    ensures Contains(x + s + y, w)
  {
    var i :| 0 <= i <= |s| && At(s, w, i);
    assert (x + s + y)[|x| + i..|x| + i + |w|] == s[i..i + |w|];
    assert At(x + s + y, w, |x| + i);
  }

  lemma ContainsTransitive<T>(a: seq<T>, b: seq<T>, c: seq<T>)
    requires Contains(a, b) && Contains(b, c)
    ensures Contains(a, c)
  {
    var i :| 0 <= i <= |a| && At(a, b, i);
    assert a == a[..i] + b + a[i + |b|..];
    ContainsPart(a[..i], b, a[i + |b|..], c);
  }

  lemma ContainsItself<T>(s: seq<T>)
    ensures Contains(s, s)
  {
    assert At(s, s, 0);
  }

  lemma ContainsSlice<T>(s: seq<T>, i: nat, j: nat)
    requires i <= j <= |s|
    ensures Contains(s, s[i..j])
  {
    assert At(s, s[i..j], i);
  }

  lemma ContainsTail<T>(s: seq<T>, i: nat)
    requires i <= |s|
    ensures Contains(s, s[i..])
  {
    assert At(s, s[i..], i);
  }

  lemma WordAt<T>(s: seq<T>, w: seq<T>, i: nat, k: nat)
    requires At(s, w, i) && i <= k < i + |w|
    ensures s[k] in w
  {
    assert w[k - i] == s[i..i + |w|][k - i];
  }

  /** An occurrence in `[c] + s` starts at the front or lies in `s`. */
  lemma ContainsCons<T>(c: T, s: seq<T>, w: seq<T>)
    requires Contains([c] + s, w)
    ensures w <= [c] + s || Contains(s, w)
  {
    var i :| 0 <= i <= |[c] + s| && At([c] + s, w, i);
    if i > 0 {
      assert ([c] + s)[i..i + |w|] == s[i - 1..i - 1 + |w|];
      assert At(s, w, i - 1);
    }
  }

  lemma SideOf<T>(x: seq<T>, c: T, y: seq<T>, w: seq<T>, i: nat)
    requires w != [] && c !in w && At(x + [c] + y, w, i)
    ensures Contains(x, w) || Contains(y, w)
  {
    var s := x + [c] + y;
    assert s[|x|] == c;
    if i <= |x| < i + |w| { WordAt(s, w, i, |x|); }
    if i + |w| <= |x| {
      assert x[i..i + |w|] == s[i..i + |w|];
      assert At(x, w, i);
    } else {
      assert y[i - |x| - 1..i - |x| - 1 + |w|] == s[i..i + |w|];
      assert At(y, w, i - |x| - 1);
    }
  }

  /** A word that avoids one character cannot straddle it. */
  lemma ContainsAcross<T>(x: seq<T>, c: T, y: seq<T>, w: seq<T>)
    requires w != [] && c !in w
    ensures Contains(x + [c] + y, w) <==> Contains(x, w) || Contains(y, w)
  {
    var s := x + [c] + y;
    if Contains(x, w) { ContainsPart([], x, [c] + y, w); assert [] + x + ([c] + y) == s; }
    if Contains(y, w) { ContainsPart(x + [c], y, [], w); assert x + [c] + y + [] == s; }
    if Contains(s, w) {
      var i :| 0 <= i <= |s| && At(s, w, i);
      SideOf(x, c, y, w, i);
    }
  }

  lemma SliceOfSlice<T>(s: seq<T>, a: nat, b: nat, i: nat, j: nat)
    requires a <= b <= |s| && i <= j <= b - a
    ensures s[a..b][i..j] == s[a + i..a + j]
  {
    forall k | 0 <= k < j - i ensures s[a..b][i..j][k] == s[a + i..a + j][k] { }
  }

  // ----- split and join --------------------------------------------------------

  /** `s.split(sep)`: cut at every leftmost, non-overlapping occurrence. */
  function Split<T(==)>(s: seq<T>, sep: seq<T>): (parts: seq<seq<T>>)
    requires sep != []
    ensures parts != [] && parts[0] <= s
    decreases |s|
  {
    if |s| < |sep| then [s]
    else if sep <= s then [[]] + Split(s[|sep|..], sep)
    else
      var rest := Split(s[1..], sep);
      [[s[0]] + rest[0]] + rest[1..]
  }

  function Join<T>(parts: seq<seq<T>>, token: seq<T>): seq<T>
    requires parts != []
  {
    if |parts| == 1 then parts[0] else parts[0] + token + Join(parts[1..], token)
  }

  /** `s.split(sep).join(token)` */
  function ReplaceAll<T(==)>(s: seq<T>, sep: seq<T>, token: seq<T>): seq<T>
    requires sep != []
  {
    Join(Split(s, sep), token)
  }

  lemma JoinHead<T>(head: seq<T>, parts: seq<seq<T>>, token: seq<T>)
    requires parts != []
    ensures Join([head + parts[0]] + parts[1..], token) == head + Join(parts, token)
  {
    var merged := [head + parts[0]] + parts[1..];
    if |parts| > 1 {
      assert merged[1..] == parts[1..];
      assert Join(merged, token) == (head + parts[0]) + token + Join(parts[1..], token);
    }
  }

  /** Every piece of a split occurs in the text and no longer holds the separator. */
  lemma {:induction false} SplitPieces<T>(s: seq<T>, sep: seq<T>, p: seq<T>)
    requires sep != [] && p in Split(s, sep)
    ensures Contains(s, p) && !Contains(p, sep)
    decreases |s|
  {
    if |s| < |sep| {
      ContainsItself(s);
    } else if sep <= s {
      if p == [] {
        assert At(s, p, 0);
      } else {
        SplitPieces(s[|sep|..], sep, p);
        ContainsTail(s, |sep|);
        ContainsTransitive(s, s[|sep|..], p);
      }
    } else {
      var rest := Split(s[1..], sep);
      ContainsTail(s, 1);
      if p in rest[1..] {
        SplitPieces(s[1..], sep, p);
        ContainsTransitive(s, s[1..], p);
      } else {
        assert p == [s[0]] + rest[0] && p <= s;
        assert At(s, p, 0);
        SplitPieces(s[1..], sep, rest[0]);
        if Contains(p, sep) { ContainsCons(s[0], rest[0], sep); }
      }
    }
  }

  lemma {:induction false} SplitAbsent<T>(s: seq<T>, sep: seq<T>)
    requires sep != [] && !Contains(s, sep)
    ensures Split(s, sep) == [s]
    decreases |s|
  {
    if |s| >= |sep| {
      if sep <= s { assert At(s, sep, 0); }
      if Contains(s[1..], sep) {
        ContainsTail(s, 1);
        ContainsTransitive(s, s[1..], sep);
      }
      SplitAbsent(s[1..], sep);
      assert s == [s[0]] + s[1..];
    }
  }

  lemma ReplaceAbsent<T>(s: seq<T>, sep: seq<T>, token: seq<T>)
    requires sep != [] && !Contains(s, sep)
    ensures ReplaceAll(s, sep, token) == s
  {
    SplitAbsent(s, sep);
  }

  /** One step of the scan. */
  lemma ReplaceUnfold<T>(s: seq<T>, sep: seq<T>, token: seq<T>)
    requires sep != []
    ensures ReplaceAll(s, sep, token)
         == if |s| < |sep| then s
            else if sep <= s then token + ReplaceAll(s[|sep|..], sep, token)
            else [s[0]] + ReplaceAll(s[1..], sep, token)
  {
    if |s| < |sep| {
    } else if sep <= s {
      assert Split(s, sep)[1..] == Split(s[|sep|..], sep);
      assert [] + token == token;
    } else {
      JoinHead([s[0]], Split(s[1..], sep), token);
    }
  }

  /** Joining with the separator undoes splitting: no character is lost or moved. */
  lemma {:induction false} JoinOfSplit<T>(s: seq<T>, sep: seq<T>)
    requires sep != []
    ensures Join(Split(s, sep), sep) == s
    decreases |s|
  {
    hide Split, Join;
    ReplaceUnfold(s, sep, sep);
    if |s| < |sep| {
    } else if sep <= s {
      JoinOfSplit(s[|sep|..], sep);
      assert s == sep + s[|sep|..];
    } else {
      JoinOfSplit(s[1..], sep);
      assert s == [s[0]] + s[1..];
    }
  }

  /** The cut is at the leftmost occurrence, and what follows it is split in turn. */
  lemma {:induction false} SplitLeftmost<T>(p: seq<T>, sep: seq<T>, s: seq<T>)
    requires sep != [] && !Contains((p + sep)[..|p| + |sep| - 1], sep)
    ensures Split(p + sep + s, sep) == [p] + Split(s, sep)
    decreases |p|
  {
    var all := p + sep + s;
    if p == [] {
      assert all[..|sep|] == sep && all[|sep|..] == s;
    } else {
      var head := (p + sep)[..|p| + |sep| - 1];
      if sep <= all { assert At(head, sep, 0); }
      assert all[1..] == p[1..] + sep + s;
      assert (p[1..] + sep)[..|p[1..]| + |sep| - 1] == head[1..];
      if Contains(head[1..], sep) {
        ContainsTail(head, 1);
        ContainsTransitive(head, head[1..], sep);
      }
      SplitLeftmost(p[1..], sep, s);
      assert [p[0]] + p[1..] == p;
    }
  }

  lemma HoldsCharacter<T>(s: seq<T>, c: T)
    ensures Contains(s, [c]) <==> c in s
  {
    if i :| 0 <= i <= |s| && At(s, [c], i) { assert s[i] == s[i..i + 1][0]; }
    if i :| 0 <= i < |s| && s[i] == c { assert At(s, [c], i); }
  }

  /** Splitting undoes joining when no piece holds the separating character. */
  lemma {:induction false} SplitOfJoin<T>(parts: seq<seq<T>>, c: T)
    requires parts != [] && forall p <- parts :: c !in p
    ensures Split(Join(parts, [c]), [c]) == parts
    decreases |parts|
  {
    var p := parts[0];
    assert p in parts;
    HoldsCharacter(p, c);
    if |parts| == 1 {
      SplitAbsent(p, [c]);
    } else {
      assert (p + [c])[..|p|] == p;
      SplitLeftmost(p, [c], Join(parts[1..], [c]));
      SplitOfJoin(parts[1..], c);
    }
  }

  lemma PrefixAcross<T>(x: seq<T>, c: T, y: seq<T>, sep: seq<T>)
    requires c !in sep
    ensures sep <= x + [c] + y <==> sep <= x
  {
    var s := x + [c] + y;
    if |sep| <= |x| {
      assert x[..|sep|] == s[..|sep|];
    } else if |sep| <= |s| {
      assert sep[|x|] in sep && s[|x|] == c;
      assert sep[|x|] != s[|x|];
    }
  }

  lemma ReplaceShort<T>(s: seq<T>, sep: seq<T>, token: seq<T>)
    requires |s| < |sep|
    ensures ReplaceAll(s, sep, token) == s
  {
  }

  /** Replacing works separately on the two sides of a character the separator avoids. */
  lemma {:induction false} ReplaceAcross<T>(x: seq<T>, c: T, y: seq<T>, sep: seq<T>, token: seq<T>)
    requires sep != [] && c !in sep
    ensures ReplaceAll(x + [c] + y, sep, token) == ReplaceAll(x, sep, token) + [c] + ReplaceAll(y, sep, token)
    decreases |x|
  {
    hide ReplaceAll;
    var s := x + [c] + y;
    PrefixAcross(x, c, y, sep);
    ReplaceUnfold(s, sep, token);
    ReplaceUnfold(x, sep, token);
    if |s| < |sep| {
      ReplaceShort(x, sep, token);
      ReplaceShort(y, sep, token);
    } else if sep <= s {
      ReplaceAcross(x[|sep|..], c, y, sep, token);
      assert s[|sep|..] == x[|sep|..] + [c] + y;
      Regroup(token, ReplaceAll(x[|sep|..], sep, token), [c], ReplaceAll(y, sep, token));
    } else if x == [] {
      ReplaceShort(x, sep, token);
      assert s[1..] == y && s[0] == c;
      assert [] + [c] + ReplaceAll(y, sep, token) == [c] + ReplaceAll(y, sep, token);
    } else {
      ReplaceAcross(x[1..], c, y, sep, token);
      assert s[1..] == x[1..] + [c] + y && s[0] == x[0];
      if |x| < |sep| {
        ReplaceShort(x[1..], sep, token);
        assert [x[0]] + x[1..] == x;
      }
      Regroup([x[0]], ReplaceAll(x[1..], sep, token), [c], ReplaceAll(y, sep, token));
    }
  }

  lemma Regroup<T>(a: seq<T>, b: seq<T>, c: seq<T>, d: seq<T>)
    ensures a + (b + c + d) == (a + b) + c + d
    ensures a + (b + c) == (a + b) + c
  {
  }

  // ----- words a token cannot hold, fill or straddle ------------------------------------------

  predicate SuffixMeets<T(==)>(w: seq<T>, t: seq<T>, k: nat) {
    k < |w| && k < |t| && w[|w| - k..] == t[..k]
  }

  /** Neither holds the other, and no end of one is a start of the other. */
  predicate Apart<T(==)>(w: seq<T>, t: seq<T>) {
    && w != [] && !Contains(t, w) && !Contains(w, t)
    && forall k :: 0 < k < |w| ==> !SuffixMeets(w, t, k) && !SuffixMeets(t, w, k)
  }

  lemma MeetsLeft<T>(x: seq<T>, t: seq<T>, y: seq<T>, w: seq<T>, i: nat)
    requires At(x + t + y, w, i) && i < |x| < i + |w| < |x| + |t|
    ensures SuffixMeets(w, t, i + |w| - |x|)
  {
    var s := x + t + y;
    SliceOfSlice(s, i, i + |w|, |x| - i, |w|);
    assert s[|x|..i + |w|] == t[..i + |w| - |x|];
  }

  lemma MeetsRight<T>(x: seq<T>, t: seq<T>, y: seq<T>, w: seq<T>, i: nat)
    requires At(x + t + y, w, i) && |x| < i < |x| + |t| < i + |w|
    ensures SuffixMeets(t, w, |x| + |t| - i)
  {
    var s, k := x + t + y, |x| + |t| - i;
    SliceOfSlice(s, i, i + |w|, 0, k);
    assert s[i..i + k] == t[|t| - k..];
  }

  lemma HeldInside<T>(x: seq<T>, t: seq<T>, y: seq<T>, w: seq<T>, i: nat)
    requires At(x + t + y, w, i)
    ensures |x| <= i && i + |w| <= |x| + |t| ==> Contains(t, w)
    ensures i <= |x| && |x| + |t| <= i + |w| ==> Contains(w, t)
  {
    var s := x + t + y;
    if |x| <= i && i + |w| <= |x| + |t| {
      assert t[i - |x|..i - |x| + |w|] == s[i..i + |w|];
      assert At(t, w, i - |x|);
    }
    if i <= |x| && |x| + |t| <= i + |w| {
      SliceOfSlice(s, i, i + |w|, |x| - i, |x| + |t| - i);
      assert s[|x|..|x| + |t|] == t;
      assert At(w, t, |x| - i);
    }
  }

  /** A word apart from the token in the middle lies wholly on one side of it. */
  lemma OverToken<T>(x: seq<T>, t: seq<T>, y: seq<T>, w: seq<T>)
    requires Apart(w, t)
    ensures Contains(x + t + y, w) <==> Contains(x, w) || Contains(y, w)
  {
    var s := x + t + y;
    if Contains(x, w) { ContainsPart([], x, t + y, w); assert [] + x + (t + y) == s; }
    if Contains(y, w) { ContainsPart(x + t, y, [], w); assert x + t + y + [] == s; }
    if i :| 0 <= i <= |s| && At(s, w, i) { SideOfToken(x, t, y, w, i); }
  }

  lemma SideOfToken<T>(x: seq<T>, t: seq<T>, y: seq<T>, w: seq<T>, i: nat)
    requires Apart(w, t) && At(x + t + y, w, i)
    ensures Contains(x, w) || Contains(y, w)
  {
    hide Contains;
    var s := x + t + y;
    HeldInside(x, t, y, w, i);
    if i < |x| < i + |w| < |x| + |t| { MeetsLeft(x, t, y, w, i); }
    if |x| < i < |x| + |t| < i + |w| { MeetsRight(x, t, y, w, i); }
    assert i + |w| <= |x| || |x| + |t| <= i;
    if i + |w| <= |x| {
      assert x[i..i + |w|] == s[i..i + |w|];
      ContainsSlice(x, i, i + |w|);
    } else {
      var j := i - |x| - |t|;
      assert y[j..j + |w|] == s[i..i + |w|];
      ContainsSlice(y, j, j + |w|);
    }
  }

  lemma {:induction false} JoinApart<T>(parts: seq<seq<T>>, t: seq<T>, w: seq<T>)
    requires parts != [] && Apart(w, t)
    ensures Contains(Join(parts, t), w) <==> exists p <- parts :: Contains(p, w)
    decreases |parts|
  {
    hide Contains, Apart;
    assert parts == [parts[0]] + parts[1..];
    if |parts| > 1 {
      JoinApart(parts[1..], t, w);
      OverToken(parts[0], t, Join(parts[1..], t), w);
    }
  }

  /** No replacement creates a word apart from its token, and none leaves one that holds its
      separator. */
  lemma ReplaceApart<T>(s: seq<T>, sep: seq<T>, t: seq<T>, w: seq<T>)
    requires sep != [] && Apart(w, t) && Contains(ReplaceAll(s, sep, t), w)
    ensures Contains(s, w) && !Contains(w, sep)
  {
    hide Contains, Apart, Split;
    var parts := Split(s, sep);
    JoinApart(parts, t, w);
    var p :| p in parts && Contains(p, w);
    SplitPieces(s, sep, p);
    ContainsTransitive(s, p, w);
    if Contains(w, sep) { ContainsTransitive(p, w, sep); }
  }

  // ----- trimming --------------------------------------------------------------

  /** The characters `String.prototype.trim` strips (white space and line
      terminators of ECMA-262, sections 12.2 and 12.3). */
  predicate IsSpace(c: char) {
    var n := c as int;
    9 <= n <= 13 || n == 0x20 || n == 0xA0 || n == 0x1680 || 0x2000 <= n <= 0x200A
    || n == 0x2028 || n == 0x2029 || n == 0x202F || n == 0x205F || n == 0x3000 || n == 0xFEFF
  }

  function TrimStart(s: string): (r: string)
    ensures |r| <= |s| && s[|s| - |r|..] == r
    ensures forall i :: 0 <= i < |s| - |r| ==> IsSpace(s[i])
    ensures r != "" ==> !IsSpace(r[0])
  {
    if s != "" && IsSpace(s[0]) then TrimStart(s[1..]) else s
  }

  function TrimEnd(s: string): (r: string)
    ensures r <= s
    ensures forall i :: |r| <= i < |s| ==> IsSpace(s[i])
    ensures r != "" ==> !IsSpace(r[|r| - 1])
  {
    if s != "" && IsSpace(s[|s| - 1]) then TrimEnd(s[..|s| - 1]) else s
  }

  function Trim(s: string): string {
    TrimEnd(TrimStart(s))
  }

  predicate Blank(s: string) { forall i :: 0 <= i < |s| ==> IsSpace(s[i]) }

  predicate Tight(s: string) { s != "" && !IsSpace(s[0]) && !IsSpace(s[|s| - 1]) }

  lemma TrimStartPadded(lead: string, s: string)
    requires Blank(lead) && s != "" && !IsSpace(s[0])
    ensures TrimStart(lead + s) == s
  {
    hide TrimStart, IsSpace;
    var all := lead + s;
    var r := TrimStart(all);
    assert all[|lead|] == s[0];
    assert |r| >= |s|;
    assert r[0] == all[|all| - |r|];
    assert forall k :: 0 <= k < |lead| ==> IsSpace(all[k]);
    assert |r| == |s|;
    assert all[|lead|..] == s;
  }

  lemma TrimEndPadded(s: string, trail: string)
    requires Blank(trail) && s != "" && !IsSpace(s[|s| - 1])
    ensures TrimEnd(s + trail) == s
  {
    hide TrimEnd, IsSpace;
    var all := s + trail;
    var r := TrimEnd(all);
    assert all[|s| - 1] == s[|s| - 1];
    assert |r| >= |s|;
    assert r[|r| - 1] == all[|r| - 1];
    assert forall k :: |s| <= k < |all| ==> IsSpace(all[k]);
    assert |r| == |s|;
    assert all[..|s|] == s;
  }

  lemma TrimPadded(lead: string, s: string, trail: string)
    requires Blank(lead) && Blank(trail) && Tight(s)
    ensures Trim(lead + s + trail) == s
  {
    assert lead + s + trail == lead + (s + trail);
    TrimStartPadded(lead, s + trail);
    TrimEndPadded(s, trail);
  }

  /** Trimming takes white space off both ends and stops at the first character that is none. */
  lemma TrimTakes(s: string) returns (lead: string, trail: string)
    ensures Blank(lead) && Blank(trail) && s == lead + Trim(s) + trail
    ensures Trim(s) == "" || Tight(Trim(s))
  {
    hide IsSpace, TrimStart, TrimEnd;
    var start := TrimStart(s);
    var kept := TrimEnd(start);
    lead, trail := s[..|s| - |start|], start[|kept|..];
    assert kept == start[..|kept|];
    assert s == lead + start && start == kept + trail;
    Regroup(lead, kept, trail, "");
  }

  /** The white space and line terminators, one by one. */
  lemma SpaceIs(c: char)
    ensures IsSpace(c) <==> c in {'\t', '\n', '\U{0B}', '\U{0C}', '\r', ' ', '\U{A0}', '\U{1680}', '\U{2000}', '\U{2001}', '\U{2002}',
                                  '\U{2003}', '\U{2004}', '\U{2005}', '\U{2006}', '\U{2007}', '\U{2008}', '\U{2009}', '\U{200A}',
                                  '\U{2028}', '\U{2029}', '\U{202F}', '\U{205F}', '\U{3000}', '\U{FEFF}'}
  {
    var n := c as int;
    if IsSpace(c) { assert n as char == c; }
  }
}
