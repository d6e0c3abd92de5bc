/** Which secrets redaction clears from every text: the exact condition, and where the code
    misses it. */
module RedactionLaw {
  import opened Text
  import opened Redaction

  // ----- replacement between angle brackets --------------------------------------------------

  predicate BracketFree(s: string) { '<' !in s && '>' !in s }

  /** Bracketed tokens for separators without brackets. */
  predicate Sharp(steps: seq<Step>) {
    forall i :: 0 <= i < |steps| ==> IsToken(steps[i].token) && BracketFree(steps[i].sep)
  }

  /** What stands on one side of a bracket never reaches the other. */
  lemma {:induction false} ApplyAcross(x: string, c: char, y: string, steps: seq<Step>)
    requires forall i :: 0 <= i < |steps| ==> c !in steps[i].sep
    ensures Apply(x + [c] + y, steps) == Apply(x, steps) + [c] + Apply(y, steps)
    decreases |steps|
  {
    if steps != [] {
      var front, st := steps[..|steps| - 1], steps[|steps| - 1];
      ApplyAcross(x, c, y, front);
      ReplaceAcross(Apply(x, front), c, Apply(y, front), st.sep, st.token);
    }
  }

  /** A bracket-free word in the result lies in one of the two sides. */
  lemma WordAcross(x: string, c: char, y: string, steps: seq<Step>, w: string)
    requires Sharp(steps) && (c == '<' || c == '>') && w != "" && BracketFree(w)
    ensures Contains(Apply(x + [c] + y, steps), w) <==> Contains(Apply(x, steps), w) || Contains(Apply(y, steps), w)
  {
    ApplyAcross(x, c, y, steps);
    ContainsAcross(Apply(x, steps), c, Apply(y, steps), w);
  }

  lemma TokenInside(token: string, steps: seq<Step>, w: string)
    requires IsToken(token) && Sharp(steps) && w != "" && BracketFree(w)
    requires Contains(Apply(token[1..|token| - 1], steps), w)
    ensures Contains(Apply(token, steps), w)
  {
    hide Apply, Contains;
    var inner := token[1..|token| - 1];
    assert token == "" + ['<'] + (inner + ['>'] + "");
    WordAcross(inner, '>', "", steps, w);
    WordAcross("", '<', inner + ['>'] + "", steps, w);
  }

  lemma {:induction false} JoinApplied(parts: seq<string>, token: string, steps: seq<Step>, w: string)
    requires parts != [] && IsToken(token) && Sharp(steps) && w != "" && BracketFree(w)
    requires Contains(Apply(Join(parts, token), steps), w)
    ensures (exists p <- parts :: Contains(Apply(p, steps), w)) || (|parts| > 1 && Contains(Apply(token, steps), w))
    decreases |parts|
  {
    hide Apply, Contains, IsToken, Sharp, BracketFree;
    if |parts| == 1 {
      assert parts[0] in parts;
    } else {
      JoinStep(parts[0], token, Join(parts[1..], token), steps, w);
      if Contains(Apply(parts[0], steps), w) {
        assert parts[0] in parts;
      } else if !Contains(Apply(token, steps), w) {
        JoinApplied(parts[1..], token, steps, w);
        var p :| p in parts[1..] && Contains(Apply(p, steps), w);
        assert p in parts;
      }
    }
  }

  lemma JoinStep(head: string, token: string, rest: string, steps: seq<Step>, w: string)
    requires IsToken(token) && Sharp(steps) && w != "" && BracketFree(w)
    requires Contains(Apply(head + token + rest, steps), w)
    ensures Contains(Apply(head, steps), w) || Contains(Apply(token, steps), w) || Contains(Apply(rest, steps), w)
  {
    hide Apply, Contains;
    var inner := token[1..|token| - 1];
    assert head + token + rest == head + ['<'] + (inner + ['>'] + rest);
    WordAcross(head, '<', inner + ['>'] + rest, steps, w);
    WordAcross(inner, '>', rest, steps, w);
    if Contains(Apply(inner, steps), w) { TokenInside(token, steps, w); }
  }

  // ----- what can be left, and what can be put back --------------------------------------------

  predicate Passes(steps: seq<Step>, w: string) {
    forall i :: 0 <= i < |steps| ==> !Contains(w, steps[i].sep)
  }

  /** Step `q` meets its separator untouched in some text: no earlier separator lies in it. */
  predicate Fires(steps: seq<Step>, q: nat) {
    q < |steps| && Passes(steps[..q], steps[q].sep)
  }

  /** The token of step `q`, run through the later steps, holds the word. */
  predicate Leaves(steps: seq<Step>, q: nat, w: string) {
    q < |steps| && Contains(Apply(steps[q].token, steps[q + 1..]), w)
  }

  predicate PutBack(steps: seq<Step>, w: string) {
    exists q :: 0 <= q < |steps| && Fires(steps, q) && Leaves(steps, q, w)
  }

  lemma PassesInside(steps: seq<Step>, s: string, w: string)
    requires Passes(steps, s) && Contains(s, w)
    ensures Passes(steps, w)
  {
    forall i | 0 <= i < |steps| ensures !Contains(w, steps[i].sep) {
      if Contains(w, steps[i].sep) { ContainsTransitive(s, w, steps[i].sep); }
    }
  }

  lemma PassesPush(steps: seq<Step>, st: Step, w: string)
    requires Passes(steps, w) && !Contains(w, st.sep)
    ensures Passes(steps + [st], w)
  {
  }

  lemma PutBackAt(steps: seq<Step>, q: nat, w: string)
    requires q < |steps| && Passes(steps[..q], steps[q].sep) && Contains(Apply(steps[q].token, steps[q + 1..]), w)
    ensures PutBack(steps, w)
  {
    assert Fires(steps, q) && Leaves(steps, q, w);
  }

  /** A word in the output comes from the text, past every separator, or out of one token. */
  lemma {:induction false} Traced(text: string, done: seq<Step>, rest: seq<Step>, w: string)
    requires Sharp(rest) && w != "" && BracketFree(w)
    requires Passes(done, text) && Contains(Apply(text, rest), w)
    ensures Passes(done + rest, w) || PutBack(done + rest, w)
    decreases |rest|
  {
    hide Contains, Passes, PutBack;
    if rest == [] {
      PassesInside(done, text, w);
      assert done + rest == done;
    } else {
      var st, later := rest[0], rest[1..];
      assert rest == [st] + later && done + rest == (done + [st]) + later;
      hide Apply, Sharp;
      var parts := Split(text, st.sep);
      FirstReplaced(text, st, later);
      assert Sharp(later) && IsToken(st.token) by { SharpTail(rest); }
      JoinApplied(parts, st.token, later, w);
      if p :| p in parts && Contains(Apply(p, later), w) {
        SplitPieces(text, st.sep, p);
        PassesInside(done, text, p);
        PassesPush(done, st, p);
        Traced(p, done + [st], later, w);
      } else {
        SplitOnce(text, st.sep);
        PassesInside(done, text, st.sep);
        var all := done + rest;
        assert all[..|done|] == done && all[|done|] == st && all[|done| + 1..] == later;
        PutBackAt(all, |done|, w);
      }
    }
  }

  lemma SharpTail(steps: seq<Step>)
    requires steps != [] && Sharp(steps)
    ensures Sharp(steps[1..]) && IsToken(steps[0].token)
  {
  }

  lemma FirstReplaced(text: string, st: Step, later: seq<Step>)
    ensures Apply(text, [st] + later) == Apply(Join(Split(text, st.sep), st.token), later)
  {
    ApplyAppend(text, [st], later);
    ApplyOne(text, [], st);
    assert [] + [st] == [st];
  }

  lemma SplitOnce(text: string, sep: string)
    requires sep != ""
    ensures |Split(text, sep)| > 1 ==> Contains(text, sep)
  {
    if !Contains(text, sep) { SplitAbsent(text, sep); }
  }

  /** Conversely, a step that fires does so on its own separator. */
  lemma FiresAlone(steps: seq<Step>, q: nat)
    requires Fires(steps, q)
    ensures Apply(steps[q].sep, steps) == Apply(steps[q].token, steps[q + 1..])
  {
    var st := steps[q];
    assert steps == steps[..q] + ([st] + steps[q + 1..]);
    ApplyAppend(st.sep, steps[..q], [st] + steps[q + 1..]);
    ApplyAbsent(st.sep, steps[..q]);
    FirstReplaced(st.sep, st, steps[q + 1..]);
    ReplaceWhole(st.sep, st.token);
  }

  lemma ReplaceWhole(sep: string, token: string)
    requires sep != ""
    ensures ReplaceAll(sep, sep, token) == token
  {
    ReplaceUnfold(sep, sep, token);
    assert sep[|sep|..] == "";
  }

  /** Some output holds a bracket-free word if and only if the word holds no separator, or some
      step that can fire leaves it behind. */
  lemma SurvivesExactly(steps: seq<Step>, w: string)
    requires Sharp(steps) && w != "" && BracketFree(w)
    ensures (exists text :: Contains(Apply(text, steps), w)) <==> Passes(steps, w) || PutBack(steps, w)
  {
    hide Sharp, Contains, BracketFree;
    if text :| Contains(Apply(text, steps), w) {
      Traced(text, [], steps, w);
      assert [] + steps == steps;
    }
    if Passes(steps, w) {
      ApplyAbsent(w, steps);
      ContainsItself(w);
      assert Contains(Apply(w, steps), w);
    } else if PutBack(steps, w) {
      var q :| 0 <= q < |steps| && Fires(steps, q) && Leaves(steps, q, w);
      FiresAlone(steps, q);
      assert Contains(Apply(steps[q].sep, steps), w);
    }
  }

  // ----- the law ---------------------------------------------------------------------------------

  /** A URI the second pass skips: not plain, and no `secret` or `key` value. */
  predicate Valueless(uri: string) { !Plain(uri) && SecretValues(uri) == [] }

  ghost predicate AlwaysCleared(uris: seq<string>) {
    forall text :: !ContainsSecret(Apply(text, Steps(uris)), uris)
  }

  /** No code is empty, and every run of a valueless URI holds something that some code makes
      `redact` replace. */
  ghost predicate Redactable(uris: seq<string>) {
    && "" !in uris
    && forall uri, w :: uri in uris && Valueless(uri) && Run(uri, w) ==> !Passes(Steps(uris), w)
  }

  /** No short secret comes back out of a token. */
  ghost predicate NothingPutBack(uris: seq<string>) {
    forall m :: MaterialIn(uris, m) && |m| < WINDOW ==> !PutBack(Steps(uris), m)
  }

  ghost predicate BracketFreeCodes(uris: seq<string>) {
    forall uri :: uri in uris ==> BracketFree(uri)
  }

  lemma FreeInside(s: string, w: string)
    requires BracketFree(s) && Contains(s, w)
    ensures BracketFree(w)
  {
    var i :| 0 <= i <= |s| && At(s, w, i);
    forall k | 0 <= k < |w| ensures w[k] in s { assert w[k] == s[i + k]; }
  }

  lemma MaterialFree(uris: seq<string>, m: string)
    requires BracketFreeCodes(uris) && MaterialIn(uris, m)
    ensures m != "" && BracketFree(m)
  {
    hide SecretMaterials;
    var uri :| uri in uris && uri != "" && m in SecretMaterials(uri);
    MaterialOf(uri, m);
    FreeInside(uri, m);
  }

  lemma OwnedIsMaterial(uris: seq<string>, m: string)
    requires OwnedIn(uris, m)
    ensures MaterialIn(uris, m)
  {
    hide SecretMaterials, Plain;
  }

  lemma StepsSharp(uris: seq<string>)
    requires BracketFreeCodes(uris)
    ensures Sharp(Steps(uris))
  {
    hide Steps, MaterialIn, OwnedIn, IsToken, BracketFree;
    var steps := Steps(uris);
    forall i | 0 <= i < |steps| ensures IsToken(steps[i].token) && BracketFree(steps[i].sep) {
      var st := steps[i];
      StepOrigin(uris, st);
      if st.sep !in uris {
        var m :| OwnedIn(uris, m) && (st.sep == m || Run(m, st.sep));
        OwnedIsMaterial(uris, m);
        MaterialFree(uris, m);
        if Run(m, st.sep) { FreeInside(m, st.sep); }
      }
    }
  }

  /** A full bracket-free window is longer than any token. */
  lemma LongRunApart(uris: seq<string>, m: string, w: string)
    requires BracketFree(m) && Run(m, w) && |m| >= WINDOW
    ensures ApartFrom(w, Steps(uris))
  {
    hide Steps;
    FreeInside(m, w);
    forall st | st in Steps(uris) ensures Apart(w, st.token) {
      StepOrigin(uris, st);
      BracketFreeApart(w, st.token);
    }
  }

  /** Every run of every secret is apart from every token put in. */
  ghost predicate ApartRuns(uris: seq<string>) {
    forall m, w :: MaterialIn(uris, m) && Run(m, w) ==> ApartFrom(w, Steps(uris))
  }

  /** The exact law's hypothesis: no angle bracket in any code; or, failing that, no secret with a
      run that meets a token. */
  ghost predicate Tractable(uris: seq<string>) { BracketFreeCodes(uris) || ApartRuns(uris) }

  lemma NotPassing(uris: seq<string>, uri: string, m: string, w: string)
    requires Redactable(uris) && uri in uris && m in SecretMaterials(uri) && Run(m, w)
    ensures !Passes(Steps(uris), w)
  {
    hide Steps, Run, Contains, Plain;
    if SecretValues(uri) != [] { SecretValueOf(uri, m); }
    if m != uri || Plain(uri) {
      RunIsSeparator(uris, uri, m, w);
      ContainsItself(w);
    }
  }

  lemma ClearedRun(uris: seq<string>, text: string, uri: string, m: string, w: string)
    requires Tractable(uris) && Redactable(uris) && NothingPutBack(uris)
    requires uri in uris && m in SecretMaterials(uri) && Run(m, w)
    ensures !Contains(Apply(text, Steps(uris)), w)
  {
    hide Steps, Run, Contains, SecretMaterials, Apply, BracketFree, ApartFrom;
    NotPassing(uris, uri, m, w);
    MaterialOf(uri, m);
    assert MaterialIn(uris, m);
    if BracketFreeCodes(uris) {
      MaterialFree(uris, m);
      if |m| < WINDOW {
        ShortRun(m);
        StepsSharp(uris);
        SurvivesExactly(Steps(uris), m);
      } else {
        LongRunApart(uris, m, w);
      }
    }
    if ApartFrom(w, Steps(uris)) && Contains(Apply(text, Steps(uris)), w) { ApplyApart(text, Steps(uris), w); }
  }

  lemma Uncleared(uris: seq<string>, text: string, uri: string, m: string, w: string)
    requires uri in uris && m in SecretMaterials(uri) && Run(m, w) && Contains(Apply(text, Steps(uris)), w)
    ensures !AlwaysCleared(uris)
  {
    assert SharesRun(Apply(text, Steps(uris)), m);
    assert ContainsSecret(Apply(text, Steps(uris)), uris);
  }

  /** Whatever the codes, a text is left uncleared when a code is empty, when a run of a
      valueless URI passes, or when a short secret is put back. */
  lemma ClearedNeeds(uris: seq<string>)
    requires AlwaysCleared(uris)
    ensures Redactable(uris) && NothingPutBack(uris)
  {
    hide Steps, Apply;
    if "" in uris {
      var out := Apply("", Steps(uris));
      assert At(out, "", 0) && At("", "", 0);
      assert Run("", "");
      Uncleared(uris, "", "", "", "");
    }
    forall uri, w | uri in uris && Valueless(uri) && Run(uri, w) ensures !Passes(Steps(uris), w) {
      if Passes(Steps(uris), w) {
        ApplyAbsent(w, Steps(uris));
        ContainsItself(w);
        assert SecretMaterials(uri)[0] == uri;
        Uncleared(uris, w, uri, uri, w);
      }
    }
    forall m | MaterialIn(uris, m) && |m| < WINDOW ensures !PutBack(Steps(uris), m) {
      if PutBack(Steps(uris), m) {
        var q :| 0 <= q < |Steps(uris)| && Fires(Steps(uris), q) && Leaves(Steps(uris), q, m);
        FiresAlone(Steps(uris), q);
        var uri :| uri in uris && uri != "" && m in SecretMaterials(uri);
        ShortRun(m);
        Uncleared(uris, Steps(uris)[q].sep, uri, m, m);
      }
    }
  }

  /** Redaction clears every text of every secret exactly when no code is empty, each run of a
      valueless URI holds something replaced, and no short secret comes back out of a token. */
  lemma ClearedIff(uris: seq<string>)
    requires Tractable(uris)
    ensures AlwaysCleared(uris) <==> Redactable(uris) && NothingPutBack(uris)
  {
    hide ApartRuns, BracketFreeCodes, Tractable, Steps, Apply, Run, Contains, SecretMaterials, Redactable, NothingPutBack;
    if Redactable(uris) && NothingPutBack(uris) {
      forall text ensures !ContainsSecret(Apply(text, Steps(uris)), uris) {
        var out := Apply(text, Steps(uris));
        forall uri, m, w | uri in uris && m in SecretMaterials(uri) && Run(m, w) ensures !Contains(out, w) {
          ClearedRun(uris, text, uri, m, w);
        }
      }
    }
    if AlwaysCleared(uris) { ClearedNeeds(uris); }
  }

  /** Where no run meets a token, none is put back. */
  lemma ApartNotPutBack(uris: seq<string>)
    requires ApartRuns(uris)
    ensures NothingPutBack(uris)
  {
    hide Steps, Apply, Contains, SecretMaterials, Apart, Run;
    var steps := Steps(uris);
    forall m, q | MaterialIn(uris, m) && |m| < WINDOW && 0 <= q < |steps| ensures !Leaves(steps, q, m) {
      ShortRun(m);
      assert Run(m, m) && ApartFrom(m, steps);
      var later := steps[q + 1..];
      assert ApartFrom(m, later);
      NotHeld(m, steps[q].token);
      if Contains(Apply(steps[q].token, later), m) { ApplyApart(steps[q].token, later, m); }
    }
  }

  lemma NotHeld(w: string, token: string)
    requires Apart(w, token)
    ensures !Contains(token, w)
  {
  }

  /** Then only a valueless URI can be left. */
  lemma ClearedIffRedactable(uris: seq<string>)
    requires ApartRuns(uris)
    ensures AlwaysCleared(uris) <==> Redactable(uris)
  {
    ApartNotPutBack(uris);
    ClearedIff(uris);
  }

  /** The usual case, every code plain or carrying a value: only a short secret can be left. */
  lemma RedactClears(uris: seq<string>)
    requires Tractable(uris) && forall uri <- uris :: uri != "" && !Valueless(uri)
    ensures AlwaysCleared(uris) <==> NothingPutBack(uris)
  {
    ClearedIff(uris);
  }

  /** Text that gives nothing away is left alone, whatever the codes. */
  lemma RedactIdentity(text: string, uris: seq<string>)
    requires !ContainsSecret(text, uris)
    ensures Apply(text, Steps(uris)) == text
  {
    forall st | st in Steps(uris) ensures !Contains(text, st.sep) {
      StepOrigin(uris, st);
      if Contains(text, st.sep) { SeparatorLeaks(text, uris, st); }
    }
    ApplyAbsent(text, Steps(uris));
  }

  lemma SeparatorLeaks(text: string, uris: seq<string>, st: Step)
    requires Origin(uris, st) && Contains(text, st.sep)
    ensures ContainsSecret(text, uris)
  {
    var uri, m;
    if st.sep in uris {
      uri, m := st.sep, SecretMaterials(st.sep)[0];
      MaterialOf(uri, m);
      ContainsTransitive(text, uri, m);
    } else {
      m :| OwnedIn(uris, m) && (st.sep == m || Run(m, st.sep));
      uri :| uri in uris && uri != "" && m in SecretMaterials(uri);
    }
    if Contains(text, m) {
      var w := if |m| < WINDOW then m else Slice(m, 0);
      ContainsSlice(m, 0, |w|);
      assert w == m[0..|w|];
      ContainsTransitive(text, m, w);
      assert Run(m, w);
    }
    assert SharesRun(text, m);
  }

  /** A text that redaction clears is not changed by redacting it again. */
  lemma RedactIdempotent(text: string, uris: seq<string>)
    requires !ContainsSecret(Apply(text, Steps(uris)), uris)
    ensures Apply(Apply(text, Steps(uris)), Steps(uris)) == Apply(text, Steps(uris))
  {
    RedactIdentity(Apply(text, Steps(uris)), uris);
  }
}
