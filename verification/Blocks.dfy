/** Splitting a command into heredocs and the runs of lines between them (`blocks` and
    `patchesPackage` in `trials/harness/checks.ts`). The three regular expressions are
    parameters: `heredoc` gives an opener's terminator word, `path` and `mutation` say
    whether a text matches. */
module Blocks {
  import opened Text

  /** How a heredoc opens and which line ends it, given the word its opener names. */
  datatype Heredoc = Heredoc(opener: string -> Option<string>, ends: (string, string) -> bool)

  /** The shell reading: the trimmed line is the word. */
  function Shell(opener: string -> Option<string>): Heredoc {
    Heredoc(opener, (word, line) => Trim(line) == word)
  }

  /** A line ends a heredoc when it is the word, with nothing but white space around it. */
  lemma TerminatorLine(opener: string -> Option<string>, word: string, line: string)
    requires Tight(word)
    ensures Shell(opener).ends(word, line) <==> exists lead, trail :: Blank(lead) && Blank(trail) && line == lead + word + trail
    ensures Shell(opener).opener == opener
  {
    var l, t := TrimTakes(line);
    if lead, trail :| Blank(lead) && Blank(trail) && line == lead + word + trail { TrimPadded(lead, word, trail); }
  }

  type Block = seq<string>

  function Flatten(bs: seq<Block>): seq<string> {
    if bs == [] then [] else bs[0] + Flatten(bs[1..])
  }

  predicate Opens(heredoc: Heredoc, line: string) { heredoc.opener(line).Some? }

  /** `line` ends the heredoc that `opener` began. */
  predicate Ends(heredoc: Heredoc, opener: string, line: string)
  {
    Opens(heredoc, opener) && heredoc.ends(heredoc.opener(opener).value, line)
  }

  predicate PlainRun(heredoc: Heredoc, b: Block) {
    b != [] && forall k :: 0 <= k < |b| ==> !Opens(heredoc, b[k])
  }

  /** An opener and what follows it, none of which ends it before the last line. */
  predicate Unfinished(heredoc: Heredoc, b: Block) {
    b != [] && Opens(heredoc, b[0]) && forall k :: 1 <= k < |b| ==> !Ends(heredoc, b[0], b[k])
  }

  predicate Terminated(heredoc: Heredoc, b: Block) {
    |b| >= 2 && Unfinished(heredoc, b[..|b| - 1]) && Ends(heredoc, b[0], b[|b| - 1])
  }

  /** Complete blocks with no two plain runs side by side. */
  predicate Complete(heredoc: Heredoc, bs: seq<Block>) {
    && (forall i :: 0 <= i < |bs| ==> Terminated(heredoc, bs[i]) || PlainRun(heredoc, bs[i]))
    && (forall i :: 0 < i < |bs| ==> !PlainRun(heredoc, bs[i - 1]) || !PlainRun(heredoc, bs[i]))
  }

  /** The declarative reading of the splitter: the blocks are the lines in order, each block
      is a terminated heredoc or a maximal opener-free run, and only the last one may be a
      heredoc that the text leaves open. */
  predicate IsBlocking(heredoc: Heredoc, lines: seq<string>, bs: seq<Block>) {
    && Flatten(bs) == lines
    && (Complete(heredoc, bs)
        || (bs != [] && Unfinished(heredoc, bs[|bs| - 1]) && Complete(heredoc, bs[..|bs| - 1])))
  }

  lemma {:induction false} FlattenPush(bs: seq<Block>, b: Block)
    ensures Flatten(bs + [b]) == Flatten(bs) + b
  {
    if bs == [] {
      assert bs + [b] == [b] && Flatten([]) == [];
    } else {
      FlattenPush(bs[1..], b);
      assert (bs + [b])[1..] == bs[1..] + [b];
    }
  }

  /** Whether a further plain run may follow `bs`. */
  predicate AfterHeredoc(heredoc: Heredoc, bs: seq<Block>) {
    bs == [] || Terminated(heredoc, bs[|bs| - 1])
  }

  /** The scanner's state after the lines `read`. */
  predicate Scan(heredoc: Heredoc, read: seq<string>, out: seq<Block>, current: Block, end: Option<string>) {
    && Flatten(out) + current == read
    && Complete(heredoc, out)
    && match end
       case None => AfterHeredoc(heredoc, out) && (current == [] || PlainRun(heredoc, current))
       case Some(word) => Unfinished(heredoc, current) && heredoc.opener(current[0]) == end
  }

  lemma ScanPlain(heredoc: Heredoc, read: seq<string>, out: seq<Block>, current: Block, line: string)
    requires Scan(heredoc, read, out, current, None) && !Opens(heredoc, line)
    ensures Scan(heredoc, read + [line], out, current + [line], None)
  {
    hide Flatten, Complete, Terminated;
    assert Flatten(out) + (current + [line]) == read + [line];
  }

  lemma ScanPush(heredoc: Heredoc, read: seq<string>, out: seq<Block>, current: Block, line: string)
    requires Scan(heredoc, read, out, current, None) && Opens(heredoc, line)
    ensures Scan(heredoc, read + [line], if current == [] then out else out + [current], [line], heredoc.opener(line))
  {
    hide Flatten;
    FlattenPush(out, current);
  }

  lemma ScanClose(heredoc: Heredoc, read: seq<string>, out: seq<Block>, current: Block, line: string)
    requires current != [] && Opens(heredoc, current[0])
    requires Scan(heredoc, read, out, current, heredoc.opener(current[0]))
    ensures var closed := current + [line];
            if Ends(heredoc, current[0], line) then Scan(heredoc, read + [line], out + [closed], [], None)
            else Scan(heredoc, read + [line], out, closed, heredoc.opener(current[0]))
  {
    hide Flatten;
    var closed := current + [line];
    FlattenPush(out, closed);
    assert Flatten(out) + closed == read + [line];
    assert closed[..|closed| - 1] == current;
  }

  lemma ScanOpen(heredoc: Heredoc, read: seq<string>, out: seq<Block>, current: Block, end: Option<string>)
    requires Scan(heredoc, read, out, current, end) && end.Some?
    ensures current != [] && Opens(heredoc, current[0]) && heredoc.opener(current[0]) == end
  {
  }

  lemma ScanEnd(heredoc: Heredoc, read: seq<string>, out: seq<Block>, current: Block, end: Option<string>)
    requires Scan(heredoc, read, out, current, end)
    ensures IsBlocking(heredoc, read, if current == [] then out else out + [current])
  {
    hide Flatten;
    FlattenPush(out, current);
    assert (out + [current])[..|out|] == out;
  }

  method Split(lines: seq<string>, heredoc: Heredoc) returns (out: seq<Block>)
    ensures IsBlocking(heredoc, lines, out)
  {
    out := [];
    var current: Block := [];
    var end: Option<string> := None;
    assert Scan(heredoc, lines[..0], out, current, end);
    hide Scan, IsBlocking;
    for i := 0 to |lines|
      invariant Scan(heredoc, lines[..i], out, current, end)
    {
      var line := lines[i];
      assert lines[..i + 1] == lines[..i] + [line];
      if end.None? {
        var opener := heredoc.opener(line);
        if opener.None? {
          ScanPlain(heredoc, lines[..i], out, current, line);
          current := current + [line];
          continue;
        }
        ScanPush(heredoc, lines[..i], out, current, line);
        if current != [] { out := out + [current]; }
        current := [line];
        end := opener;
      } else {
        ScanOpen(heredoc, lines[..i], out, current, end);
        ScanClose(heredoc, lines[..i], out, current, line);
        current := current + [line];
        if heredoc.ends(end.value, line) {
          out := out + [current];
          current := [];
          end := None;
        }
      }
    }
    assert lines[..|lines|] == lines;
    ScanEnd(heredoc, lines, out, current, end);
    if current != [] { out := out + [current]; }
  }

  // ----- uniqueness -------------------------------------------------------------------

  lemma TailBlocking(heredoc: Heredoc, lines: seq<string>, bs: seq<Block>)
    requires IsBlocking(heredoc, lines, bs) && bs != []
    ensures bs[0] != [] && bs[0] <= lines && IsBlocking(heredoc, lines[|bs[0]|..], bs[1..])
    ensures |bs| > 1 ==> PlainRun(heredoc, bs[0]) || Terminated(heredoc, bs[0])
    ensures |bs| > 1 && PlainRun(heredoc, bs[0]) ==> Opens(heredoc, bs[1][0])
    ensures Opens(heredoc, bs[0][0]) ==> Terminated(heredoc, bs[0]) || Unfinished(heredoc, bs[0])
    ensures !Opens(heredoc, bs[0][0]) ==> PlainRun(heredoc, bs[0])
  {
    var rest := bs[1..];
    assert lines[|bs[0]|..] == Flatten(rest);
    if Complete(heredoc, bs) {
      assert Complete(heredoc, rest);
    } else {
      var front := bs[..|bs| - 1];
      if |bs| > 1 {
        assert rest[..|rest| - 1] == front[1..];
        assert front[0] == bs[0];
        if |bs| > 2 { assert front[1] == bs[1]; }
      }
    }
  }

  /** Only an opener-free run can be continued inside another block. */
  lemma ProperPrefix(heredoc: Heredoc, b: Block, c: Block)
    requires |b| < |c| && b <= c
    requires PlainRun(heredoc, b) || Terminated(heredoc, b)
    requires PlainRun(heredoc, c) || Terminated(heredoc, c) || Unfinished(heredoc, c)
    ensures PlainRun(heredoc, b) && !Opens(heredoc, c[|b|])
  {
    assert b[0] == c[0] && b[|b| - 1] == c[|b| - 1];
    assert c[..|c| - 1][|b| - 1] == c[|b| - 1];
  }

  lemma FirstNotShorter(heredoc: Heredoc, lines: seq<string>, bs: seq<Block>, cs: seq<Block>)
    requires IsBlocking(heredoc, lines, bs) && bs != []
    requires IsBlocking(heredoc, lines, cs) && cs != []
    ensures |bs[0]| >= |cs[0]|
  {
    TailBlocking(heredoc, lines, bs);
    TailBlocking(heredoc, lines, cs);
    var b, c := bs[0], cs[0];
    if |b| < |c| {
      assert b == c[..|b|];
      assert lines == b + Flatten(bs[1..]);
      ProperPrefix(heredoc, b, c);
      TailBlocking(heredoc, lines[|b|..], bs[1..]);
    }
  }

  /** There is exactly one blocking of any lines. */
  lemma {:induction false} BlockingUnique(heredoc: Heredoc, lines: seq<string>, bs: seq<Block>, cs: seq<Block>)
    requires IsBlocking(heredoc, lines, bs) && IsBlocking(heredoc, lines, cs)
    ensures bs == cs
    decreases |bs|
  {
    if bs != [] { TailBlocking(heredoc, lines, bs); }
    if cs != [] { TailBlocking(heredoc, lines, cs); }
    if bs == [] || cs == [] {
      assert lines == Flatten(bs) == Flatten(cs);
    } else {
      FirstNotShorter(heredoc, lines, bs, cs);
      FirstNotShorter(heredoc, lines, cs, bs);
      assert bs[0] == lines[..|bs[0]|] == cs[0];
      BlockingUnique(heredoc, lines[|bs[0]|..], bs[1..], cs[1..]);
      assert bs == [bs[0]] + bs[1..] && cs == [cs[0]] + cs[1..];
    }
  }

  // ----- writes aimed at the installed package ---------------------------------------------

  function From(at: nat): nat { if at < 15 then 0 else at - 15 }

  function To(b: Block, at: nat): nat { if at + 15 < |b| then at + 15 else |b| }

  /** The lines from 15 before `at` to 14 after it, inside the block. */
  function Around(b: Block, at: nat): seq<string>
    requires at < |b|
  {
    b[From(at)..To(b, at)]
  }

  predicate Patch(path: string -> bool, mutation: string -> bool, b: Block, at: nat)
  {
    at < |b| && path(b[at]) && var near := Around(b, at); near != [] && mutation(Text.Join(near, "\n"))
  }

  /** `lo` and `hi` lie 15 lines before and after `at`, or where a block of `n` lines ends first. */
  predicate Reach(n: nat, at: nat, lo: nat, hi: nat) {
    && lo <= at < hi <= n && at - lo <= 15 && hi - at <= 15
    && (at - lo == 15 || lo == 0) && (hi - at == 15 || hi == n)
  }

  /** In block `b` line `at` names the package, and the lines around it, joined again, hold a write. */
  predicate WriteNear(path: string -> bool, mutation: string -> bool, b: Block, at: nat, lo: nat, hi: nat) {
    Reach(|b|, at, lo, hi) && path(b[at]) && mutation(Text.Join(b[lo..hi], "\n"))
  }

  ghost predicate Patched(path: string -> bool, mutation: string -> bool, bs: seq<Block>) {
    exists i, at: nat, lo: nat, hi: nat :: 0 <= i < |bs| && WriteNear(path, mutation, bs[i], at, lo, hi)
  }

  lemma ReachIs(b: Block, at: nat, lo: nat, hi: nat)
    requires at < |b|
    ensures Reach(|b|, at, lo, hi) <==> lo == From(at) && hi == To(b, at)
  {
  }

  lemma PatchIff(path: string -> bool, mutation: string -> bool, b: Block, at: nat)
    ensures Patch(path, mutation, b, at) <==> exists lo: nat, hi: nat :: WriteNear(path, mutation, b, at, lo, hi)
  {
    if at < |b| {
      ReachIs(b, at, From(at), To(b, at));
      if Patch(path, mutation, b, at) { assert WriteNear(path, mutation, b, at, From(at), To(b, at)); }
      if lo: nat, hi: nat :| WriteNear(path, mutation, b, at, lo, hi) { ReachIs(b, at, lo, hi); }
    }
  }

  /** `some` over the blocks and their lines. */
  predicate Finds(path: string -> bool, mutation: string -> bool, bs: seq<Block>) {
    exists i | 0 <= i < |bs| :: exists at | 0 <= at < |bs[i]| :: Patch(path, mutation, bs[i], at)
  }

  lemma FindsIff(path: string -> bool, mutation: string -> bool, bs: seq<Block>)
    ensures Finds(path, mutation, bs) <==> Patched(path, mutation, bs)
  {
    hide WriteNear, Patch;
    if Finds(path, mutation, bs) {
      var i :| 0 <= i < |bs| && exists at | 0 <= at < |bs[i]| :: Patch(path, mutation, bs[i], at);
      var at :| 0 <= at < |bs[i]| && Patch(path, mutation, bs[i], at);
      PatchIff(path, mutation, bs[i], at);
    }
    if Patched(path, mutation, bs) {
      var i, at: nat, lo: nat, hi: nat :| 0 <= i < |bs| && WriteNear(path, mutation, bs[i], at, lo, hi);
      PatchIff(path, mutation, bs[i], at);
      PatchInside(path, mutation, bs[i], at);
    }
  }

  lemma PatchInside(path: string -> bool, mutation: string -> bool, b: Block, at: nat)
    requires Patch(path, mutation, b, at)
    ensures at < |b|
  {
  }

  /** True exactly when, in some block, a line names the package and a write is found in the lines
      around it: all 15 before it and 15 from it on, as far as the block goes. */
  method PatchesPackage(text: string, opener: string -> Option<string>, path: string -> bool, mutation: string -> bool)
    returns (found: bool)
    ensures forall bs :: IsBlocking(Shell(opener), Text.Split(text, "\n"), bs) ==>
      (found <==> exists i, at: nat, lo: nat, hi: nat :: 0 <= i < |bs| && WriteNear(path, mutation, bs[i], at, lo, hi))
  {
    hide Finds, IsBlocking, WriteNear;
    var lines := Text.Split(text, "\n");
    var bs := Split(lines, Shell(opener));
    found := Finds(path, mutation, bs);
    FindsIff(path, mutation, bs);
    forall cs | IsBlocking(Shell(opener), lines, cs) ensures cs == bs {
      BlockingUnique(Shell(opener), lines, bs, cs);
    }
  }

  /** Around every line of a block there is exactly one such stretch. */
  lemma OneReach(n: nat, at: nat)
    requires at < n
    ensures exists lo: nat, hi: nat :: Reach(n, at, lo, hi)
    ensures forall lo: nat, hi: nat, lo': nat, hi': nat :: Reach(n, at, lo, hi) && Reach(n, at, lo', hi') ==> lo == lo' && hi == hi'
  {
    assert Reach(n, at, if at < 15 then 0 else at - 15, if at + 15 < n then at + 15 else n);
  }

  /** Where block `i` starts in the lines. */
  function Start(bs: seq<Block>, i: nat): nat
    requires i <= |bs|
  {
    |Flatten(bs[..i])|
  }

  lemma BlockAt(bs: seq<Block>, i: nat)
    requires i < |bs|
    ensures Start(bs, i + 1) == Start(bs, i) + |bs[i]| <= |Flatten(bs)|
    ensures Flatten(bs)[Start(bs, i)..Start(bs, i + 1)] == bs[i]
  {
    FlattenPush(bs[..i], bs[i]);
    assert bs[..i + 1] == bs[..i] + [bs[i]];
    FlattenSplit(bs[..i + 1], bs[i + 1..]);
    assert bs == bs[..i + 1] + bs[i + 1..];
  }

  lemma {:induction false} FlattenSplit(a: seq<Block>, b: seq<Block>)
    ensures Flatten(a + b) == Flatten(a) + Flatten(b)
    decreases |b|
  {
    if b == [] {
      assert a + b == a;
    } else {
      FlattenPush(a, b[0]);
      FlattenSplit(a + [b[0]], b[1..]);
      assert a + b == a + [b[0]] + b[1..] && b == [b[0]] + b[1..];
    }
  }

  lemma {:induction false} StartGrows(bs: seq<Block>, i: nat, j: nat)
    requires i <= j <= |bs|
    ensures Start(bs, i) <= Start(bs, j)
    decreases j
  {
    if i < j {
      StartGrows(bs, i, j - 1);
      BlockAt(bs, j - 1);
    }
  }

  predicate PatchStretch(path: string -> bool, mutation: string -> bool, lines: seq<string>, lo: nat, p: nat, hi: nat) {
    && lo <= p < hi <= |lines| && p - lo <= 15 && hi - p <= 15
    && path(lines[p]) && mutation(Text.Join(lines[lo..hi], "\n"))
  }

  lemma StretchOf(path: string -> bool, mutation: string -> bool, lines: seq<string>, base: nat, b: Block, at: nat, lo: nat, hi: nat)
    requires base + |b| <= |lines| && lines[base..base + |b|] == b && WriteNear(path, mutation, b, at, lo, hi)
    ensures PatchStretch(path, mutation, lines, base + lo, base + at, base + hi)
  {
    assert lines[base + at] == lines[base..base + |b|][at];
    SliceOfSlice(lines, base, base + |b|, lo, hi);
  }

  ghost predicate NoBoundary(bs: seq<Block>, lo: nat, hi: nat) {
    forall j :: 0 <= j <= |bs| ==> Start(bs, j) <= lo || hi <= Start(bs, j)
  }

  /** A finding reads one stretch of at most 30 lines around a package path, and no block
      starts or ends inside that stretch. */
  lemma PatchInOneBlock(path: string -> bool, mutation: string -> bool, lines: seq<string>, bs: seq<Block>)
    requires Flatten(bs) == lines && Patched(path, mutation, bs)
    ensures exists lo: nat, p: nat, hi: nat :: PatchStretch(path, mutation, lines, lo, p, hi) && NoBoundary(bs, lo, hi)
  {
    var i, at: nat, lo: nat, hi: nat :| 0 <= i < |bs| && WriteNear(path, mutation, bs[i], at, lo, hi);
    var base := Start(bs, i);
    BlockAt(bs, i);
    StretchOf(path, mutation, lines, base, bs[i], at, lo, hi);
    NoBoundaryInside(bs, i, base + lo, base + hi);
  }

  lemma NoBoundaryInside(bs: seq<Block>, i: nat, lo: nat, hi: nat)
    requires i < |bs| && Start(bs, i) <= lo <= hi <= Start(bs, i + 1)
    ensures NoBoundary(bs, lo, hi)
  {
    forall j | 0 <= j <= |bs| ensures Start(bs, j) <= lo || hi <= Start(bs, j) {
      if j <= i { StartGrows(bs, j, i); } else { StartGrows(bs, i + 1, j); }
    }
  }
}
