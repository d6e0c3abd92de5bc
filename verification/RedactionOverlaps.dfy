/** Long passwords with a window that meets the token put in for them: when `redact` leaves it
    readable. */
module RedactionOverlaps {
  import opened Text
  import opened Redaction
  import opened RedactionLaw
  import opened RedactionCases

  // ----- replacing at the end of a text ------------------------------------------------------

  lemma NotYet(c: char, x: string, sep: string)
    requires sep != "" && sep[|sep| - 1] !in [c] + x && sep[|sep| - 1] !in sep[..|sep| - 1]
    ensures !(sep <= [c] + (x + sep))
  {
    var body, s := sep[..|sep| - 1], [c] + (x + sep);
    var before := [c] + x + body;
    assert s == before + [sep[|sep| - 1]];
    assert before[|body|] in before;
    assert s[|body|] != sep[|body|];
  }

  lemma ReplaceSkip(c: char, s: string, sep: string, token: string)
    requires sep != "" && |sep| <= |s| && !(sep <= [c] + s)
    ensures ReplaceAll([c] + s, sep, token) == [c] + ReplaceAll(s, sep, token)
  {
    ReplaceUnfold([c] + s, sep, token);
    assert ([c] + s)[1..] == s;
  }

  /** A separator whose last character occurs nowhere before is replaced where it ends the text. */
  lemma {:induction false} ReplaceAtEnd(x: string, sep: string, token: string)
    requires sep != "" && sep[|sep| - 1] !in x && sep[|sep| - 1] !in sep[..|sep| - 1]
    ensures ReplaceAll(x + sep, sep, token) == x + token
  {
    hide ReplaceAll;
    if x == "" {
      ReplaceWhole(sep, token);
      assert x + sep == sep && x + token == token;
    } else {
      var c, rest := x[0], x[1..];
      assert x == [c] + rest;
      NotYet(c, rest, sep);
      ReplaceSkip(c, rest + sep, sep, token);
      ReplaceAtEnd(rest, sep, token);
      Regroup([c], rest, sep, []);
      Regroup([c], rest, token, []);
    }
  }

  /** The windows from the `k`-th on. */
  lemma {:induction false} LaterWindows(o: Owned, k: nat, n: nat) returns (later: seq<Step>)
    requires k <= n && n + WINDOW <= |o.material| + 1
    ensures WindowSteps(o, n) == WindowSteps(o, k) + later
    ensures forall st <- later :: exists i :: k <= i < n && st.sep == Slice(o.material, i)
  {
    if k == n {
      later := [];
      assert WindowSteps(o, k) + [] == WindowSteps(o, k);
    } else {
      var front := LaterWindows(o, k, n - 1);
      var st := Step(Slice(o.material, n - 1), o.token);
      later := front + [st];
      assert WindowSteps(o, k) + front + [st] == WindowSteps(o, k) + later;
    }
  }

  // ----- the steps around a password ---------------------------------------------------------

  lemma {:induction false} OwnedStepsAppend(a: seq<Owned>, b: seq<Owned>)
    ensures OwnedSteps(a + b, |a + b|) == OwnedSteps(a, |a|) + OwnedSteps(b, |b|)
    decreases |b|
  {
    hide StepsOf;
    if b == [] {
      assert a + b == a;
    } else {
      var front, o := b[..|b| - 1], b[|b| - 1];
      OwnedStepsAppend(a, front);
      OwnedStepsFront(a + b, a + front, |a + front|);
      OwnedStepsFront(b, front, |front|);
      Regroup(OwnedSteps(a, |a|), OwnedSteps(front, |front|), StepsOf(o), []);
    }
  }

  lemma {:induction false} OwnedStepsFront(all: seq<Owned>, front: seq<Owned>, n: nat)
    requires front <= all && n <= |front|
    ensures OwnedSteps(all, n) == OwnedSteps(front, n)
  {
    if n > 0 { OwnedStepsFront(all, front, n - 1); }
  }

  lemma {:induction false} CodesFront(all: seq<string>, front: seq<string>, n: nat)
    requires front <= all && n <= |front|
    ensures AllOwned(all, n) == AllOwned(front, n) && UriSteps(all, n) == UriSteps(front, n)
  {
    hide OwnedBy, UriStep;
    if n > 0 { CodesFront(all, front, n - 1); }
  }

  lemma {:induction false} SortAround(owned: seq<Owned>, o: Owned) returns (pre: seq<Owned>, post: seq<Owned>)
    ensures LongestFirst(owned + [o]) == pre + [o] + post
    ensures forall p <- pre + post :: p in owned
  {
    if owned == [] {
      pre, post := [], [];
      assert owned + [o] == [o];
    } else {
      var pre', post' := SortAround(owned[1..], o);
      assert (owned + [o])[1..] == owned[1..] + [o] && (owned + [o])[0] == owned[0];
      pre, post := InsertAround(owned[0], pre', o, post');
      forall p | p in pre + post ensures p in owned { assert p == owned[0] || p in pre' + post'; }
    }
  }

  lemma {:induction false} InsertAround(a: Owned, pre: seq<Owned>, o: Owned, post: seq<Owned>)
    returns (pre': seq<Owned>, post': seq<Owned>)
    ensures InsertByLength(a, pre + [o] + post) == pre' + [o] + post'
    ensures forall p <- pre' + post' :: p == a || p in pre + post
  {
    var all := pre + [o] + post;
    if |a.material| >= |all[0].material| {
      pre', post' := [a] + pre, post;
      assert [a] + all == pre' + [o] + post';
    } else if pre == [] {
      pre', post' := [], InsertByLength(a, post);
      assert all[1..] == post && all[0] == o;
      InsertMembers(a, post);
      assert [o] + post' == pre' + [o] + post';
    } else {
      var front, back := InsertAround(a, pre[1..], o, post);
      pre', post' := [pre[0]] + front, back;
      assert all[1..] == pre[1..] + [o] + post && all[0] == pre[0];
      assert [pre[0]] + (front + [o] + back) == pre' + [o] + post';
      forall p | p in pre' + post' ensures p == a || p in pre + post {
        if p != pre[0] { assert p in front + back; assert p in pre[1..] + post ==> p in pre + post; }
      }
    }
  }

  lemma InsertMembers(a: Owned, sorted: seq<Owned>)
    ensures forall p <- InsertByLength(a, sorted) :: p == a || p in sorted
  {
    forall p | p in InsertByLength(a, sorted) ensures p == a || p in sorted {
      assert p in multiset(InsertByLength(a, sorted));
    }
  }

  ghost predicate AllFrom(uris: seq<string>, steps: seq<Step>) {
    forall i :: 0 <= i < |steps| ==> Origin(uris, steps[i])
  }

  lemma FromOwned(uris: seq<string>, some: seq<Owned>)
    requires forall p <- some :: p in AllOwned(uris, |uris|)
    ensures AllFrom(uris, OwnedSteps(some, |some|))
  {
    hide OwnedSteps, AllOwned, OwnedIn, IsToken, Run;
    var steps := OwnedSteps(some, |some|);
    forall i | 0 <= i < |steps| ensures Origin(uris, steps[i]) {
      var o := OwnedStepOrigin(some, |some|, steps[i]);
      OwnedOrigin(uris, |uris|, o);
    }
  }

  lemma FromUris(uris: seq<string>)
    ensures AllFrom(uris, UriSteps(uris, |uris|))
  {
    hide UriSteps, IsToken;
    var steps := UriSteps(uris, |uris|);
    forall i | 0 <= i < |steps| ensures Origin(uris, steps[i]) { UriStepOrigin(uris, |uris|, steps[i]); }
  }

  /** A code with one owned material, last in the list: its own steps, between those of the other
      codes. */
  lemma StepsAround(codes: seq<string>, pw: Word) returns (first: seq<Step>, pre: seq<Step>, post: seq<Step>)
    requires SecretMaterials(pw) == [pw] && Plain(pw)
    ensures var t := Token(|codes|, pw);
            Steps(codes + [pw]) == first + [Step(pw, t)] + (pre + StepsOf(Owned(pw, t)) + post)
    ensures AllFrom(codes, first) && AllFrom(codes, pre) && AllFrom(codes, post)
  {
    hide SecretMaterials, Plain, Token, StepsOf, AllFrom, LongestFirst;
    var uris, n := codes + [pw], |codes|;
    var t := Token(n, pw);
    var o, owned := Owned(pw, t), AllOwned(codes, n);
    OwnedByOne(pw, n, pw);
    CodesFront(uris, codes, n);
    assert AllOwned(uris, n + 1) == owned + [o] && UriSteps(uris, n + 1) == UriSteps(codes, n) + [Step(pw, t)];
    var before, after := SortAround(owned, o);
    OwnedStepsAppend(before + [o], after);
    OwnedStepsAppend(before, [o]);
    assert OwnedSteps([o], 0) == [] && OwnedSteps([o], 1) == StepsOf(o);
    first, pre, post := UriSteps(codes, n), OwnedSteps(before, |before|), OwnedSteps(after, |after|);
    FromUris(codes);
    FromOwned(codes, before);
    FromOwned(codes, after);
  }

  lemma MissedAbsent(codes: seq<string>, steps: seq<Step>, text: string)
    requires AllFrom(codes, steps) && !ContainsSecret(text, codes)
    ensures forall st <- steps :: !Contains(text, st.sep)
  {
    hide Contains, ContainsSecret, Origin;
    forall st | st in steps ensures !Contains(text, st.sep) {
      if Contains(text, st.sep) { SeparatorLeaks(text, codes, st); }
    }
  }

  // ----- a window that meets the token -------------------------------------------------------

  /** Window `k` of the password ends in the first `n` characters of `<SECRET>`. The witness is the
      window without them, followed by the next window. */
  datatype Overlap = Overlap(pw: string, k: nat, n: nat)

  predicate Meeting(v: Overlap) {
    && 1 <= v.n < 8 && v.k + WINDOW < |v.pw|
    && v.pw[v.k + WINDOW - v.n..v.k + WINDOW] == "<SECRET>"[..v.n]
  }

  function Front(v: Overlap): string
    requires Meeting(v)
  {
    v.pw[v.k..v.k + WINDOW - v.n]
  }

  function Next(v: Overlap): Word
    requires Meeting(v)
  {
    Slice(v.pw, v.k + 1)
  }

  function Witness(v: Overlap): string
    requires Meeting(v)
  {
    Front(v) + Next(v)
  }

  function Leftover(v: Overlap): string
    requires Meeting(v)
  {
    Front(v) + "<SECRET>"
  }

  /** Nothing but the next window is replaced in the witness, and nothing in what that leaves. */
  ghost predicate Undisturbed(codes: seq<string>, v: Overlap)
    requires Meeting(v)
  {
    && !ContainsSecret(Witness(v), codes) && !ContainsSecret(Leftover(v), codes)
    && (forall i :: 0 <= i <= v.k ==> !Contains(Witness(v), Slice(v.pw, i)))
    && ReplaceAll(Witness(v), Next(v), "<SECRET>") == Leftover(v)
    && (forall i :: v.k + 1 < i <= |v.pw| - WINDOW ==> !Contains(Leftover(v), Slice(v.pw, i)))
  }

  lemma LeftoverHolds(v: Overlap)
    requires Meeting(v)
    ensures Contains(Leftover(v), Slice(v.pw, v.k)) && Run(v.pw, Slice(v.pw, v.k))
  {
    var w := Slice(v.pw, v.k);
    assert w == Front(v) + "<SECRET>"[..v.n];
    assert Leftover(v)[..WINDOW] == w;
    assert At(Leftover(v), w, 0);
    ContainsSlice(v.pw, v.k, v.k + WINDOW);
  }

  /** The password's own steps before and after the cut. */
  lemma OwnSteps(codes: seq<string>, v: Overlap) returns (before: seq<Step>, after: seq<Step>)
    requires Meeting(v) && Undisturbed(codes, v)
    ensures StepsOf(Owned(v.pw, "<SECRET>")) == before + [Step(Next(v), "<SECRET>")] + after
    ensures forall st <- before :: !Contains(Witness(v), st.sep)
    ensures forall st <- after :: !Contains(Leftover(v), st.sep)
  {
    hide Contains, ContainsSecret, Witness, Leftover, Next, Slice, StepsOf, WindowSteps;
    var o, n := Owned(v.pw, "<SECRET>"), |v.pw| - WINDOW + 1;
    after := LaterWindows(o, v.k + 2, n);
    var early := LaterWindows(o, 0, v.k + 1);
    before := [Step(v.pw, o.token)] + early;
    WindowsSplit(v, o, early, after);
    WholeAbsent(v);
    EarlyAbsent(v, early);
    LateAbsent(v, after);
  }

  lemma WindowsSplit(v: Overlap, o: Owned, early: seq<Step>, after: seq<Step>)
    requires Meeting(v) && o == Owned(v.pw, "<SECRET>")
    requires WindowSteps(o, v.k + 1) == WindowSteps(o, 0) + early
    requires WindowSteps(o, |v.pw| - WINDOW + 1) == WindowSteps(o, v.k + 2) + after
    ensures StepsOf(o) == [Step(v.pw, o.token)] + early + [Step(Next(v), o.token)] + after
  {
    hide Slice;
    assert WindowSteps(o, v.k + 2) == early + [Step(Next(v), o.token)];
    Regroup([Step(v.pw, o.token)], early + [Step(Next(v), o.token)], after, []);
    Regroup([Step(v.pw, o.token)], early, [Step(Next(v), o.token)], []);
  }

  lemma EarlyAbsent(v: Overlap, early: seq<Step>)
    requires Meeting(v) && forall i :: 0 <= i <= v.k ==> !Contains(Witness(v), Slice(v.pw, i))
    requires forall st <- early :: exists i :: 0 <= i < v.k + 1 && st.sep == Slice(v.pw, i)
    ensures forall st <- early :: !Contains(Witness(v), st.sep)
  {
    hide Contains, Witness, Slice;
  }

  lemma LateAbsent(v: Overlap, late: seq<Step>)
    requires Meeting(v) && forall i :: v.k + 1 < i <= |v.pw| - WINDOW ==> !Contains(Leftover(v), Slice(v.pw, i))
    requires forall st <- late :: exists i :: v.k + 2 <= i < |v.pw| - WINDOW + 1 && st.sep == Slice(v.pw, i)
    ensures forall st <- late :: !Contains(Leftover(v), st.sep)
  {
    hide Contains, Leftover, Slice;
  }

  lemma WholeAbsent(v: Overlap)
    requires Meeting(v) && !Contains(Witness(v), Slice(v.pw, 0))
    ensures !Contains(Witness(v), v.pw)
  {
    hide Witness;
    ContainsSlice(v.pw, 0, WINDOW);
    if Contains(Witness(v), v.pw) { ContainsTransitive(Witness(v), v.pw, Slice(v.pw, 0)); }
  }

  lemma WitnessRun(v: Overlap, before: seq<Step>, after: seq<Step>)
    requires Meeting(v) && ReplaceAll(Witness(v), Next(v), "<SECRET>") == Leftover(v)
    requires forall st <- before :: !Contains(Witness(v), st.sep)
    requires forall st <- after :: !Contains(Leftover(v), st.sep)
    ensures Apply(Witness(v), before + [Step(Next(v), "<SECRET>")] + after) == Leftover(v)
  {
    hide Apply, Meeting, Contains, Witness, Next, Leftover, ReplaceAll;
    var st := Step(Next(v), "<SECRET>");
    ApplyAbsent(Witness(v), before);
    ApplyOne(Witness(v), before, st);
    ApplyAppend(Witness(v), before + [st], after);
    ApplyAbsent(Leftover(v), after);
  }

  lemma Around(a: seq<Step>, b: seq<Step>, c: seq<Step>, d: seq<Step>, e: seq<Step>, f: seq<Step>, g: seq<Step>)
    ensures a + b + (c + (d + e + f) + g) == (a + b + c + d) + e + (f + g)
  {
  }

  lemma AbsentBoth(a: seq<Step>, b: seq<Step>, text: string)
    requires (forall st <- a :: !Contains(text, st.sep)) && (forall st <- b :: !Contains(text, st.sep))
    ensures forall st <- a + b :: !Contains(text, st.sep)
  {
    hide Contains;
  }

  /** A long password behind any codes: a window that meets the token is left readable, because the
      token put in for the next window completes it, unless something else is replaced on the
      way. */
  lemma OverlapLeaks(codes: seq<string>, v: Overlap)
    requires codes != [] && Plain(v.pw) && SecretValues(v.pw) == [] && Meeting(v) && Undisturbed(codes, v)
    ensures !AlwaysCleared(codes + [v.pw])
  {
    assert Token(|codes|, v.pw) == "<SECRET>" && SecretMaterials(v.pw) == [v.pw];
    hide SecretValues, Contains, Plain, Steps, StepsOf, Apply, Witness, Leftover, Next, AlwaysCleared, AllFrom, Slice, ReplaceAll, Token;
    var first, pre, post := StepsAround(codes, v.pw);
    var before, after := OwnSteps(codes, v);
    var whole, cut := [Step(v.pw, "<SECRET>")], [Step(Next(v), "<SECRET>")];
    Around(first, whole, pre, before, cut, after, post);
    OverlapBefore(codes, v, first, pre, before);
    MissedAbsent(codes, post, Leftover(v));
    AbsentBoth(after, post, Leftover(v));
    WitnessRun(v, first + whole + pre + before, after + post);
    LeftoverHolds(v);
    Uncleared(codes + [v.pw], Witness(v), v.pw, v.pw, Slice(v.pw, v.k));
  }

  lemma OverlapBefore(codes: seq<string>, v: Overlap, first: seq<Step>, pre: seq<Step>, before: seq<Step>)
    requires Meeting(v) && Undisturbed(codes, v) && AllFrom(codes, first) && AllFrom(codes, pre)
    requires forall st <- before :: !Contains(Witness(v), st.sep)
    ensures forall st <- first + [Step(v.pw, "<SECRET>")] + pre + before :: !Contains(Witness(v), st.sep)
  {
    hide Contains, Witness, Leftover, Next, AllFrom, ContainsSecret;
    var whole: seq<Step> := [Step(v.pw, "<SECRET>")];
    MissedAbsent(codes, first, Witness(v));
    MissedAbsent(codes, pre, Witness(v));
    WholeAbsent(v);
    AbsentBoth(first, whole, Witness(v));
    AbsentBoth(first + whole, pre, Witness(v));
    AbsentBoth(first + whole + pre, before, Witness(v));
  }

  // ----- a family of them ---------------------------------------------------------------------

  /** A password of up to 24 characters with a bracket in twelfth place and a fresh character
      after it. */
  datatype Bracketed = Bracketed(head: string, mark: char, tail: string)

  predicate Fresh(b: Bracketed) {
    && |b.head| == WINDOW - 1 && |b.tail| < WINDOW && '<' !in b.head && b.head[0] != b.head[WINDOW - 2]
    && b.mark !in b.head && b.mark !in "<SECRET>"
  }

  function Spelling(b: Bracketed): string { b.head + "<" + [b.mark] + b.tail }

  function FirstWindow(b: Bracketed): Overlap { Overlap(Spelling(b), 0, 1) }

  lemma FreshMeets(b: Bracketed)
    requires Fresh(b)
    ensures var v := FirstWindow(b);
            && Meeting(v) && Front(v) == b.head && Next(v) == b.head[1..] + "<" + [b.mark]
            && Slice(v.pw, 0) == b.head + "<"
    ensures forall i | 2 <= i <= |Spelling(b)| - WINDOW :: b.mark in Slice(Spelling(b), i)
  {
    assert "<SECRET>"[..1] == "<" == Spelling(b)[11..12];
    forall i | 2 <= i <= |Spelling(b)| - WINDOW ensures b.mark in Slice(Spelling(b), i) {
      assert Slice(Spelling(b), i)[12 - i] == Spelling(b)[12] == b.mark;
    }
  }

  lemma FirstAbsent(b: Bracketed)
    requires Fresh(b)
    ensures !Contains(b.head + (b.head[1..] + "<" + [b.mark]), b.head + "<")
  {
    var text, w := b.head + (b.head[1..] + "<" + [b.mark]), b.head + "<";
    forall i | 0 <= i <= |text| ensures !At(text, w, i) {
      if i + |w| <= |text| {
        var part := text[i..i + |w|];
        assert w[0] == b.head[0] && w[11] == '<' && part[0] == text[i] && part[11] == text[i + 11];
        assert text[10] == b.head[10];
        assert text[i + 11] == '<' ==> i == 10;
      }
    }
  }

  lemma NextCut(b: Bracketed)
    requires Fresh(b)
    ensures ReplaceAll(b.head + (b.head[1..] + "<" + [b.mark]), b.head[1..] + "<" + [b.mark], "<SECRET>") == b.head + "<SECRET>"
  {
    var sep := b.head[1..] + "<" + [b.mark];
    assert sep[..|sep| - 1] == b.head[1..] + "<";
    ReplaceAtEnd(b.head, sep, "<SECRET>");
  }

  lemma FreshUndisturbed(codes: seq<string>, b: Bracketed)
    requires Fresh(b)
    requires var v := FirstWindow(b); Meeting(v) && !ContainsSecret(Witness(v), codes) && !ContainsSecret(Leftover(v), codes)
    ensures Undisturbed(codes, FirstWindow(b))
  {
    hide ContainsSecret, Contains, ReplaceAll, Slice;
    var v := FirstWindow(b);
    FreshMeets(b);
    FirstAbsent(b);
    NextCut(b);
    forall i | 2 <= i <= |v.pw| - WINDOW ensures !Contains(Leftover(v), Slice(v.pw, i)) {
      CharMissing(Leftover(v), Slice(v.pw, i), b.mark);
    }
  }

  lemma WalletMissesLeftover(codes: seq<string>, v: Overlap)
    requires WalletCodes(codes, |codes|) && Meeting(v)
    ensures !ContainsSecret(Leftover(v), codes)
  {
    assert |Front(v)| < WINDOW;
    hide Contains, WalletCode, SecretMaterials, SecretValues;
    forall uri, m, w | uri in codes && m in SecretMaterials(uri) && Run(m, w) ensures !Contains(Leftover(v), w) {
      var i :| 0 <= i < |codes| && codes[i] == uri;
      WalletRunFree(uri, m, w);
      LeftoverMisses(Front(v), w);
    }
  }

  lemma WalletRunFree(code: string, m: string, w: string)
    requires WalletCode(code) && m in SecretMaterials(code) && Run(m, w)
    ensures |w| == WINDOW && BracketFree(w)
  {
    hide SecretMaterials, SecretValues, Contains;
    WalletCodeLong(code);
    MaterialOf(code, m);
    FreeInside(code, m);
    FreeInside(m, w);
  }

  lemma LeftoverMisses(front: string, w: string)
    requires |front| < WINDOW == |w| && BracketFree(w)
    ensures !Contains(front + "<SECRET>", w)
  {
    assert front + "<SECRET>" == front + ['<'] + ("SECRET" + ['>'] + "");
    ContainsAcross(front, '<', "SECRET" + ['>'] + "", w);
    ContainsAcross("SECRET", '>', "", w);
    TooLong(front, w);
    TooLong("SECRET", w);
    TooLong("", w);
  }

  /** Behind any wallet codes whose secrets the witness does not meet, every password of the family
      leaves its first window readable in some text. */
  lemma BracketLeaks(codes: seq<string>, b: Bracketed)
    requires WalletCodes(codes, |codes|) && codes != []
    requires Fresh(b) && Plain(Spelling(b)) && SecretValues(Spelling(b)) == []
    requires var v := FirstWindow(b); Meeting(v) ==> !ContainsSecret(Witness(v), codes)
    ensures !AlwaysCleared(codes + [Spelling(b)])
  {
    hide WalletCode, SecretValues, ContainsSecret, AlwaysCleared, Plain, Undisturbed, Witness, Leftover, Slice, Front, Next;
    FreshMeets(b);
    WalletMissesLeftover(codes, FirstWindow(b));
    FreshUndisturbed(codes, b);
    OverlapLeaks(codes, FirstWindow(b));
  }

  /** `abcdefghijk<mnopqrst`; its witness is `abcdefghijkbcdefghijk<m`. */
  const EXAMPLE := Bracketed("abcdefghijk", 'm', "nopqrst")

  lemma ExampleFresh()
    ensures Fresh(EXAMPLE) && !IsHex(EXAMPLE.head[10])
  {
  }

  predicate Plainly(s: string) { Markless(s) && ':' !in s }

  lemma PlainlyBoth(a: string, b: string)
    requires Plainly(a) && Plainly(b)
    ensures Plainly(a + b)
  {
  }

  lemma HeadPlainly()
    ensures Plainly(EXAMPLE.head)
  {
  }

  lemma TailPlainly()
    ensures Plainly(EXAMPLE.tail)
  {
  }

  lemma MidPlainly()
    ensures Plainly("<" + [EXAMPLE.mark])
  {
  }

  lemma ExamplePlain()
    ensures Plain(Spelling(EXAMPLE)) && SecretValues(Spelling(EXAMPLE)) == []
  {
    assert Spelling(EXAMPLE) == EXAMPLE.head + ("<" + [EXAMPLE.mark]) + EXAMPLE.tail;
    hide Plainly, SecretValues, Contains, EXAMPLE, Spelling;
    HeadPlainly();
    MidPlainly();
    TailPlainly();
    PlainlyBoth(EXAMPLE.head, "<" + [EXAMPLE.mark]);
    PlainlyBoth(EXAMPLE.head + ("<" + [EXAMPLE.mark]), EXAMPLE.tail);
    NoColon(Spelling(EXAMPLE));
  }

  lemma NoColon(s: string)
    requires Plainly(s)
    ensures Plain(s) && SecretValues(s) == []
  {
    hide SecretValues, Contains;
    NoMarker(s);
    CharMissing(s, "://", ':');
  }

  lemma WitnessNonHex(b: Bracketed)
    requires Fresh(b) && !IsHex(b.head[10])
    ensures var text := b.head + (b.head[1..] + "<" + [b.mark]); forall i :: 0 <= i <= |text| - WINDOW ==> NonHexIn(text, i)
  {
    var text := b.head + (b.head[1..] + "<" + [b.mark]);
    assert text[10] == b.head[10] && text[20] == b.head[10];
    forall i | 0 <= i <= |text| - WINDOW ensures NonHexIn(text, i) {
      var k := if i <= 10 then 10 else 20;
      assert i <= k < i + WINDOW && !IsHex(text[k]);
    }
  }

  /** A failing input behind the loaded codes, whatever their digits. */
  lemma BracketedPassword(key: string, secret: string, lscKey: string, lscSecret: string)
    requires Hex64(key) && Hex64(secret) && HexLong(lscKey) && HexLong(lscSecret)
    ensures !AlwaysCleared(Loaded(key, secret, lscKey, lscSecret) + [Spelling(EXAMPLE)])
  {
    ExampleFresh();
    hide AlwaysCleared, WalletCode, HexCode, Loaded, Contains, ContainsSecret, Hex64, HexLong, SecretValues, Plain, EXAMPLE, Fresh, NonHexIn, Spelling, Slice;
    var codes := Loaded(key, secret, lscKey, lscSecret);
    LoadedCodes(key, secret, lscKey, lscSecret);
    ExamplePlain();
    FreshMeets(EXAMPLE);
    WitnessNonHex(EXAMPLE);
    var v := FirstWindow(EXAMPLE);
    assert Witness(v) == EXAMPLE.head + (EXAMPLE.head[1..] + "<" + [EXAMPLE.mark]);
    HexMisses(Witness(v), codes);
    BracketLeaks(codes, EXAMPLE);
  }
}
