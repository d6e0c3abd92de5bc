/** Which code lists `redact` clears: passwords behind wallet codes, and the inputs it leaves
    readable. */
module RedactionCases {
  import opened Text
  import opened Redaction
  import opened RedactionLaw

  // ----- a short password behind wallet codes -----------------------------------------------

  /** A plain secret under 12 characters. */
  predicate Password(code: string) {
    code != "" && |code| < WINDOW && Plain(code) && SecretValues(code) == []
  }

  /** A wallet code: a URI whose secret values all fill a window. */
  predicate WalletCode(code: string) {
    && !Plain(code) && BracketFree(code) && SecretValues(code) != []
    && forall v <- SecretValues(code) :: |v| >= WINDOW
  }

  /** The first `n` codes are wallet codes. */
  predicate WalletCodes(uris: seq<string>, n: nat) {
    n <= |uris| && forall i :: 0 <= i < n ==> WalletCode(uris[i])
  }

  predicate AllLong(steps: seq<Step>) { forall i :: 0 <= i < |steps| ==> |steps[i].sep| >= WINDOW }

  lemma WalletCodeLong(code: string)
    requires WalletCode(code)
    ensures |code| >= WINDOW && SecretMaterials(code) == SecretValues(code)
    ensures forall m <- SecretMaterials(code) :: |m| >= WINDOW
  {
    SecretValueOf(code, SecretValues(code)[0]);
  }

  lemma {:induction false} CodeStepLong(uris: seq<string>, n: nat, st: Step)
    requires WalletCodes(uris, n) && st in UriSteps(uris, n)
    ensures |st.sep| >= WINDOW
  {
    hide WalletCode, Token;
    if st in UriSteps(uris, n - 1) { CodeStepLong(uris, n - 1, st); } else { WalletCodeLong(uris[n - 1]); }
  }

  lemma CodeStepsLong(uris: seq<string>, n: nat)
    requires WalletCodes(uris, n)
    ensures AllLong(UriSteps(uris, n))
  {
    hide UriSteps, WalletCode;
    var steps := UriSteps(uris, n);
    forall i | 0 <= i < |steps| ensures |steps[i].sep| >= WINDOW { CodeStepLong(uris, n, steps[i]); }
  }

  lemma LongBoth(a: seq<Step>, b: seq<Step>)
    requires AllLong(a) && AllLong(b)
    ensures AllLong(a + b)
  {
  }

  lemma {:induction false} CodesOwnLong(uris: seq<string>, n: nat, o: Owned)
    requires WalletCodes(uris, n) && o in AllOwned(uris, n)
    ensures |o.material| >= WINDOW
  {
    hide WalletCode, OwnedBy;
    if o in AllOwned(uris, n - 1) {
      CodesOwnLong(uris, n - 1, o);
    } else {
      OwnedByOrigin(uris[n - 1], n - 1, o);
      WalletCodeLong(uris[n - 1]);
    }
  }

  lemma {:induction false} OwnedStepsLong(owned: seq<Owned>, n: nat)
    requires n <= |owned| && forall i :: 0 <= i < n ==> |owned[i].material| >= WINDOW
    ensures AllLong(OwnedSteps(owned, n))
  {
    if n > 0 {
      hide AllLong, StepsOf;
      OwnedStepsLong(owned, n - 1);
      WindowsLong(owned[n - 1]);
      LongBoth(OwnedSteps(owned, n - 1), StepsOf(owned[n - 1]));
    }
  }

  lemma WindowsLong(o: Owned)
    requires |o.material| >= WINDOW
    ensures AllLong(StepsOf(o))
  {
    forall st | st in StepsOf(o) ensures |st.sep| >= WINDOW {
      if st != Step(o.material, o.token) { WindowOrigin(o, |o.material| - WINDOW + 1, st); }
    }
  }

  lemma {:induction false} ShortestLast(owned: seq<Owned>, o: Owned)
    requires forall i :: 0 <= i < |owned| ==> |owned[i].material| > |o.material|
    ensures LongestFirst(owned + [o]) == LongestFirst(owned) + [o]
  {
    if owned == [] {
      assert owned + [o] == [o];
    } else {
      ShortestLast(owned[1..], o);
      assert (owned + [o])[1..] == owned[1..] + [o] && (owned + [o])[0] == owned[0];
      InsertBeforeLast(owned[0], LongestFirst(owned[1..]), o);
    }
  }

  lemma {:induction false} InsertBeforeLast(a: Owned, sorted: seq<Owned>, o: Owned)
    requires |a.material| > |o.material|
    ensures InsertByLength(a, sorted + [o]) == InsertByLength(a, sorted) + [o]
  {
    var all := sorted + [o];
    if sorted == [] {
      assert all == [o];
    } else if |a.material| >= |sorted[0].material| {
      Regroup([a], sorted, [o], []);
    } else {
      InsertBeforeLast(a, sorted[1..], o);
      assert all[1..] == sorted[1..] + [o] && all[0] == sorted[0];
      Regroup([sorted[0]], InsertByLength(a, sorted[1..]), [o], []);
    }
  }

  lemma SortedWithPassword(uris: seq<string>, n: nat, pw: string) returns (sorted: seq<Owned>)
    requires |uris| == n + 1 && uris[n] == pw && WalletCodes(uris, n) && Password(pw)
    ensures LongestFirst(AllOwned(uris, n + 1)) == sorted + [Owned(pw, Token(n, pw))]
    ensures forall i :: 0 <= i < |sorted| ==> |sorted[i].material| >= WINDOW
  {
    hide WalletCode, SecretValues, Plain, Token, LongestFirst;
    var o, owned := Owned(pw, Token(n, pw)), AllOwned(uris, n);
    assert SecretMaterials(pw) == [pw];
    OwnedByOne(pw, n, pw);
    forall i | 0 <= i < |owned| ensures |owned[i].material| >= WINDOW { CodesOwnLong(uris, n, owned[i]); }
    ShortestLast(owned, o);
    sorted := LongestFirst(owned);
    forall i | 0 <= i < |sorted| ensures |sorted[i].material| >= WINDOW { SortKeeps(owned, sorted[i]); }
  }

  lemma OwnedStepsLast(sorted: seq<Owned>, o: Owned)
    requires |o.material| < WINDOW && forall i :: 0 <= i < |sorted| ==> |sorted[i].material| >= WINDOW
    ensures var all := sorted + [o];
            AllLong(OwnedSteps(all, |sorted|)) && OwnedSteps(all, |all|) == OwnedSteps(all, |sorted|) + [Step(o.material, o.token)]
  {
    hide AllLong;
    OwnedStepsLong(sorted + [o], |sorted|);
    assert StepsOf(o) == [Step(o.material, o.token)];
  }

  /** Behind wallet codes a password is replaced last, in both passes. */
  lemma PasswordSteps(codes: seq<string>, pw: string) returns (first: seq<Step>, long: seq<Step>)
    requires WalletCodes(codes, |codes|) && Password(pw)
    ensures var st := Step(pw, Token(|codes|, pw)); Steps(codes + [pw]) == first + [st] + long + [st]
    ensures AllLong(first) && AllLong(long)
  {
    hide WalletCode, AllLong, LongestFirst, AllOwned, OwnedSteps, Token, SecretValues, Plain;
    var uris, n := codes + [pw], |codes|;
    var st := Step(pw, Token(n, pw));
    assert |uris| == n + 1 && uris[n] == pw && WalletCodes(uris, n);
    first := UriSteps(uris, n);
    CodeStepsLong(uris, n);
    var sorted := SortedWithPassword(uris, n, pw);
    var o := Owned(pw, Token(n, pw));
    OwnedStepsLast(sorted, o);
    long := OwnedSteps(sorted + [o], |sorted|);
    assert UriSteps(uris, n + 1) == first + [st];
    Regroup(first + [st], long, [st], []);
  }

  /** A code with one owned material. */
  lemma OwnedByOne(uri: string, index: nat, m: Word)
    requires uri != "" && SecretMaterials(uri) == [m] && (m != uri || Plain(uri))
    ensures OwnedBy(uri, index) == [Owned(m, Token(index, uri))]
  {
    hide SecretMaterials, Token, Plain;
    var t := Token(index, uri);
    assert OwnedOf(uri, t, [m], 0) == [] && OwnedOf(uri, t, [m], 1) == [Owned(m, t)];
  }

  lemma LongAbsent(steps: seq<Step>, s: string)
    requires AllLong(steps) && |s| < WINDOW
    ensures Passes(steps, s) && Apply(s, steps) == s
  {
    ApplyAbsent(s, steps);
  }

  // ----- what the last replacement allows ---------------------------------------------------

  /** Replacing the password never leaves it standing. */
  ghost predicate NeverRegrown(pw: Word, token: string) {
    forall s :: !Contains(ReplaceAll(s, pw, token), pw)
  }

  lemma ApartNeverRegrown(pw: Word, token: string)
    requires Apart(pw, token)
    ensures NeverRegrown(pw, token)
  {
    hide Apart, Contains, ReplaceAll;
    forall s ensures !Contains(ReplaceAll(s, pw, token), pw) {
      if Contains(ReplaceAll(s, pw, token), pw) {
        ReplaceApart(s, pw, token, pw);
        ContainsItself(pw);
      }
    }
  }

  lemma LastClears(text: string, codes: seq<string>, pw: Word)
    requires WalletCodes(codes, |codes|) && Password(pw) && NeverRegrown(pw, Token(|codes|, pw))
    ensures !Contains(Apply(text, Steps(codes + [pw])), pw)
  {
    hide Contains, WalletCode, Password, Steps, AllLong, Token, ReplaceAll;
    var first, long := PasswordSteps(codes, pw);
    var st := Step(pw, Token(|codes|, pw));
    ApplyOne(text, first + [st] + long, st);
  }

  lemma WalletRunCleared(text: string, uris: seq<string>, uri: string, m: string, w: string)
    requires uri in uris && WalletCode(uri) && m in SecretMaterials(uri) && Run(m, w)
    ensures !Contains(Apply(text, Steps(uris)), w)
  {
    hide Steps, Apply, SecretMaterials, SecretValues, Run, Contains, Plain;
    WalletCodeLong(uri);
    MaterialOf(uri, m);
    FreeInside(uri, m);
    SecretValueOf(uri, m);
    LongRunApart(uris, m, w);
    RunIsSeparator(uris, uri, m, w);
    ContainsItself(w);
    if Contains(Apply(text, Steps(uris)), w) { ApplyApart(text, Steps(uris), w); }
  }

  /** A short password behind wallet codes, whatever its characters, is cleared from every text
      when no replacement of it regrows it. */
  lemma PasswordCleared(codes: seq<string>, pw: string)
    requires WalletCodes(codes, |codes|) && Password(pw) && NeverRegrown(pw, Token(|codes|, pw))
    ensures AlwaysCleared(codes + [pw])
  {
    hide Steps, Apply, SecretValues, WalletCode, Contains, Plain, Run, NeverRegrown, Token;
    var uris := codes + [pw];
    forall text ensures !ContainsSecret(Apply(text, Steps(uris)), uris) {
      forall uri, m, w | uri in uris && m in SecretMaterials(uri) && Run(m, w)
        ensures !Contains(Apply(text, Steps(uris)), w)
      {
        if uri in codes {
          WalletRunCleared(text, uris, uri, m, w);
        } else {
          assert uri == pw && SecretMaterials(pw) == [pw];
          ShortRun(pw);
          LastClears(text, codes, pw);
        }
      }
    }
  }

  /** A short password behind any number of wallet codes is cleared from every text when it is apart
      from its own token: `<SECRET>` behind a code, `<NWC>` alone. */
  lemma ApartPassword(codes: seq<string>, pw: string)
    requires WalletCodes(codes, |codes|) && Password(pw) && Apart(pw, Token(|codes|, pw))
    ensures AlwaysCleared(codes + [pw])
  {
    ApartNeverRegrown(pw, Token(|codes|, pw));
    PasswordCleared(codes, pw);
  }

  lemma SpelledPutBack(first: seq<Step>, long: seq<Step>, st: Step)
    requires AllLong(first) && AllLong(long) && |st.sep| < WINDOW && IsToken(st.token) && Contains(st.token, st.sep)
    ensures PutBack(first + [st] + long + [st], st.sep)
  {
    hide Contains, AllLong, Apply, PutBack;
    var steps := first + [st] + long + [st];
    assert steps[|first| + 1..] == long + [st] && steps[|first|] == st && steps[..|first|] == first;
    LongAbsent(first, st.sep);
    LongAbsent(long, st.token);
    ApplyOne(st.token, long, st);
    ReplacedHoldsToken(st.token, st.sep, st.token);
    ContainsTransitive(Apply(st.token, long + [st]), st.token, st.sep);
    PutBackAt(steps, |first|, st.sep);
  }

  lemma SpelledLeaks(codes: seq<string>, pw: string)
    requires WalletCodes(codes, |codes|) && Password(pw) && Contains(Token(|codes|, pw), pw)
    ensures !AlwaysCleared(codes + [pw])
  {
    hide Contains, WalletCode, AllLong, Steps, SecretValues, Token, IsToken, Plain, PutBack, AlwaysCleared;
    TokenIsToken(|codes|, pw);
    var st := Step(pw, Token(|codes|, pw));
    var first, long := PasswordSteps(codes, pw);
    SpelledPutBack(first, long, st);
    PasswordIsMaterial(codes + [pw], pw);
    if AlwaysCleared(codes + [pw]) { ClearedNeeds(codes + [pw]); }
  }

  /** Without brackets, that is exactly when the token does not spell it. */
  lemma ShortPassword(codes: seq<string>, pw: string)
    requires WalletCodes(codes, |codes|) && Password(pw) && BracketFree(pw)
    ensures AlwaysCleared(codes + [pw]) <==> !Contains(Token(|codes|, pw), pw)
  {
    hide Contains, WalletCode, AlwaysCleared, Token, SecretValues, Plain, IsToken, Apart;
    TokenIsToken(|codes|, pw);
    BracketFreeApart(pw, Token(|codes|, pw));
    if Contains(Token(|codes|, pw), pw) { SpelledLeaks(codes, pw); } else { ApartPassword(codes, pw); }
  }

  lemma PasswordIsMaterial(uris: seq<string>, pw: string)
    requires pw in uris && Password(pw)
    ensures MaterialIn(uris, pw)
  {
    hide SecretValues;
    assert SecretMaterials(pw) == [pw];
  }

  lemma ReplacedHoldsToken(s: string, sep: string, token: string)
    requires sep != "" && Contains(s, sep)
    ensures Contains(ReplaceAll(s, sep, token), token)
  {
    var parts := Split(s, sep);
    if |parts| == 1 { SplitPieces(s, sep, parts[0]); JoinOfSplit(s, sep); }
    ContainsItself(token);
    ContainsPart(parts[0], token, Join(parts[1..], token), token);
  }

  /** Meeting the token is not enough to leak: three opening brackets end in a start of the token,
      yet no replacement of them leaves three. */
  lemma TripleBracket(codes: seq<string>)
    requires WalletCodes(codes, |codes|) && codes != []
    ensures !Apart("<<<", Token(|codes|, "<<<")) && AlwaysCleared(codes + ["<<<"])
  {
    hide WalletCode, AlwaysCleared, SecretValues, SecretMaterials, NeverRegrown;
    var pw := "<<<";
    assert Password(pw) by { BracketsPlain(); }
    assert Token(|codes|, pw) == "<SECRET>";
    BracketsMeet();
    BracketsNeverRegrown();
    PasswordCleared(codes, pw);
  }

  lemma BracketsPlain()
    ensures Plain("<<<") && SecretValues("<<<") == []
  {
    hide SecretValues;
    NoMarker("<<<");
    CharMissing("<<<", "://", ':');
  }

  lemma BracketsMeet()
    ensures !Apart("<<<", "<SECRET>") && Token(1, "<<<") == "<SECRET>"
  {
    assert "<<<"[2..] == "<" == "<SECRET>"[..1];
    assert SuffixMeets("<<<", "<SECRET>", 1);
    BracketsPlain();
  }

  lemma BracketsNeverRegrown()
    ensures NeverRegrown("<<<", "<SECRET>")
  {
    forall s ensures !Contains(ReplaceAll(s, "<<<", "<SECRET>"), "<<<") { BracketsGone(s); }
  }

  /** The output starts with a bracket only where the text does, and with two only where they
      stand unreplaced. */
  lemma {:induction false} BracketsGone(s: string)
    ensures var out := ReplaceAll(s, "<<<", "<SECRET>");
            && !Contains(out, "<<<")
            && (out != "" && out[0] == '<' ==> s != "" && s[0] == '<')
            && ("<<" <= out ==> "<<" <= s)
    decreases |s|
  {
    hide ReplaceAll, Contains;
    var w, t := "<<<", "<SECRET>";
    ReplaceUnfold(s, w, t);
    if |s| < 3 {
      TooLong(s, w);
    } else if w <= s {
      var rest := ReplaceAll(s[3..], w, t);
      BracketsGone(s[3..]);
      assert t + rest == "<SECRET" + ['>'] + rest;
      ContainsAcross("<SECRET", '>', rest, w);
      assert "<SECRET" == "<" + ['S'] + "ECRET";
      ContainsAcross("<", 'S', "ECRET", w);
      TooLong("<", w);
      CharMissing("ECRET", w, '<');
    } else {
      var rest := ReplaceAll(s[1..], w, t);
      BracketsGone(s[1..]);
      if Contains([s[0]] + rest, w) { ContainsCons(s[0], rest, w); }
      BracketsFront(s, rest);
    }
  }

  lemma BracketsFront(s: string, rest: string)
    requires |s| >= 3 && !("<<<" <= s)
    requires rest != "" && rest[0] == '<' ==> s[1] == '<'
    requires "<<" <= rest ==> "<<" <= s[1..]
    ensures !("<<<" <= [s[0]] + rest) && ("<<" <= [s[0]] + rest ==> "<<" <= s)
  {
    Doubled(s);
    Doubled(s[1..]);
    Doubled([s[0]] + rest);
    Doubled(rest);
    assert s[1..][1..] == s[2..] && ([s[0]] + rest)[1..] == rest;
  }

  lemma Doubled(s: string)
    ensures "<" <= s <==> s != "" && s[0] == '<'
    ensures "<<" <= s <==> s != "" && s[0] == '<' && "<" <= s[1..]
    ensures "<<<" <= s <==> s != "" && s[0] == '<' && "<<" <= s[1..]
  {
    if |s| >= 2 { assert s[..2] == [s[0], s[1]]; }
    if |s| >= 3 { assert s[..3] == [s[0], s[1], s[2]]; }
  }

  lemma TooLong(s: string, w: string)
    requires |s| < |w|
    ensures !Contains(s, w)
  {
  }

  // ----- a URI without a value --------------------------------------------------------------

  /** The word shares no run with any secret of the other codes. */
  ghost predicate OthersMiss(uris: seq<string>, u: string, w: string) {
    forall v :: v in uris && v != u ==> !ContainsSecret(w, [v])
  }

  lemma OthersPass(uris: seq<string>, u: string, w: string, st: Step)
    requires Valueless(u) && |w| < |u| && OthersMiss(uris, u, w) && st in Steps(uris)
    ensures !Contains(w, st.sep)
  {
    hide Steps, Contains, SecretValues, ContainsSecret, Run, Plain;
    StepOrigin(uris, st);
    if st.sep in uris {
      if st.sep == u { TooLong(w, u); } else if Contains(w, st.sep) { SeparatorLeaks(w, [st.sep], st); }
    } else {
      var m :| OwnedIn(uris, m) && (st.sep == m || Run(m, st.sep));
      var v :| v in uris && v != "" && m in SecretMaterials(v) && (m != v || Plain(v));
      assert v != u;
      assert OwnedIn([v], m);
      if Contains(w, st.sep) { SeparatorLeaks(w, [v], st); }
    }
  }

  /** A URI without a value, anywhere in the list: each of its windows passes through untouched
      unless it shares a run with another code's secret, and the harness's own check calls it a
      secret. */
  lemma UriLeaks(uris: seq<string>, u: string, w: string)
    requires u in uris && Valueless(u) && |u| > WINDOW && Run(u, w) && OthersMiss(uris, u, w)
    ensures !AlwaysCleared(uris)
  {
    hide Steps, Contains, SecretValues, AlwaysCleared, Apply, OthersMiss, Plain;
    forall st | st in Steps(uris) ensures !Contains(w, st.sep) { OthersPass(uris, u, w, st); }
    ApplyAbsent(w, Steps(uris));
    ContainsItself(w);
    assert SecretMaterials(u) == [u];
    Uncleared(uris, w, u, u, w);
  }

  lemma NotPrefix(w: string, s: string)
    requires w != "" && s != "" && s[0] != w[0]
    ensures !(w <= s)
  {
  }

  lemma {:induction false} NoMarker(s: string)
    requires '?' !in s && '&' !in s
    ensures SecretValues(s) == []
  {
    if s != "" {
      NotPrefix("?secret=", s);
      NotPrefix("&secret=", s);
      NotPrefix("?key=", s);
      NotPrefix("&key=", s);
      NoMarker(s[1..]);
    }
  }

  // ----- the codes the harness loads --------------------------------------------------------

  predicate IsHex(c: char) { '0' <= c <= '9' || 'a' <= c <= 'f' }

  predicate Hex(s: string) { forall i :: 0 <= i < |s| ==> IsHex(s[i]) }

  /** A code whose secrets are hex strings that fill a window. */
  predicate HexCode(code: string) {
    SecretValues(code) != [] && forall v <- SecretValues(code) :: |v| >= WINDOW && Hex(v)
  }

  predicate NonHexIn(text: string, i: nat) {
    exists k :: i <= k < i + WINDOW && k < |text| && !IsHex(text[k])
  }

  /** A text with a non-hex character in each 12-character stretch holds no hex secret's run. */
  lemma HexMisses(text: string, codes: seq<string>)
    requires forall code <- codes :: HexCode(code)
    requires forall i :: 0 <= i <= |text| - WINDOW ==> NonHexIn(text, i)
    ensures !ContainsSecret(text, codes)
  {
    hide SecretValues, Contains, Run, NonHexIn, Hex;
    forall uri, m, w | uri in codes && m in SecretMaterials(uri) && Run(m, w) ensures !Contains(text, w) {
      HexRun(m, w);
      HexAbsent(text, w);
    }
  }

  lemma HexAbsent(text: string, w: string)
    requires Hex(w) && |w| == WINDOW && forall i :: 0 <= i <= |text| - WINDOW ==> NonHexIn(text, i)
    ensures !Contains(text, w)
  {
    forall i | 0 <= i <= |text| ensures !At(text, w, i) {
      if i + WINDOW <= |text| {
        assert NonHexIn(text, i);
        var k :| i <= k < i + WINDOW && k < |text| && !IsHex(text[k]);
        assert text[i..i + |w|][k - i] == text[k] && IsHex(w[k - i]);
      }
    }
  }

  lemma HexRun(m: string, w: string)
    requires Hex(m) && |m| >= WINDOW && Run(m, w)
    ensures Hex(w) && |w| == WINDOW
  {
    var i :| 0 <= i <= |m| && At(m, w, i);
    forall k | 0 <= k < |w| ensures IsHex(w[k]) { assert w[k] == m[i + k]; }
  }

  predicate Markless(s: string) { '?' !in s && '&' !in s }

  lemma ValueWhole(s: string)
    requires '&' !in s
    ensures ValueLength(s) == |s|
  {
    assert forall i :: 0 <= i < |s| ==> s[i] != '&';
  }

  lemma ValueEnds(mark: string, value: string)
    requires mark in ["?secret=", "&secret="] && value != "" && '&' !in value
    ensures SecretValues(mark + value) == [value]
  {
    var s := mark + value;
    assert s[..8] == mark && s[8..] == value && s[8] == value[0];
    ValueWhole(value);
    assert MarkerLength(s) == 8 && ValueAt(s, 8) == value;
    assert s[8 + |value|..] == "" && SecretValues("") == [];
  }

  lemma KeyThen(key: string, rest: string)
    requires key != "" && '&' !in key && rest != "" && rest[0] == '&'
    ensures SecretValues("?key=" + key + rest) == [key] + SecretValues(rest)
  {
    var s := "?key=" + key + rest;
    KeyMark(s, key + rest);
    ValueUpTo(key, rest);
    assert s[5..] == key + rest && s[5 + |key|..] == rest && s[5..5 + |key|] == key;
  }

  lemma KeyMark(s: string, value: string)
    requires s == "?key=" + value && value != "" && value[0] != '&'
    ensures MarkerLength(s) == 5
  {
    assert s[..5] == "?key=" && s[5] == value[0];
    assert "?secret="[1] == 's' && s[1] == 'k';
  }

  lemma {:induction false} ValueUpTo(key: string, rest: string)
    requires '&' !in key && rest != "" && rest[0] == '&'
    ensures ValueLength(key + rest) == |key|
  {
    if key == "" {
      assert key + rest == rest;
    } else {
      ValueUpTo(key[1..], rest);
      assert (key + rest)[1..] == key[1..] + rest && (key + rest)[0] == key[0];
    }
  }

  lemma SkipOne(s: string)
    requires s != "" && s[0] != '?' && s[0] != '&'
    ensures SecretValues(s) == SecretValues(s[1..])
  {
    NotPrefix("?secret=", s);
    NotPrefix("&secret=", s);
    NotPrefix("?key=", s);
    NotPrefix("&key=", s);
  }

  lemma {:induction false} SkipHost(host: string, rest: string)
    requires Markless(host)
    ensures SecretValues(host + rest) == SecretValues(rest)
  {
    hide SecretValues;
    if host == "" {
      assert host + rest == rest;
    } else {
      var s := host + rest;
      assert s[1..] == host[1..] + rest && s[0] == host[0];
      SkipOne(s);
      SkipHost(host[1..], rest);
    }
  }

  const NWC_SCHEME := "nostr+" + "walletconnect" + "://"
  const LSC_HOST := "lightning+" + "swapconnect" + "://" + "swap.example/"

  /** The two codes every trial has: 64 hex digits of wallet key and of secret, and a swap code with
      a key and a secret. */
  function Nwc(key: string, secret: string): string { NWC_SCHEME + key + "?secret=" + secret }

  function Lsc(key: string, secret: string): string { LSC_HOST + "?key=" + key + "&secret=" + secret }

  predicate Hex64(s: string) { |s| == 64 && Hex(s) }

  predicate HexLong(s: string) { |s| >= WINDOW && Hex(s) }

  lemma HexBare(s: string)
    requires Hex(s)
    ensures Markless(s) && BracketFree(s) && ':' !in s
  {
    assert forall i :: 0 <= i < |s| ==> s[i] != '?' && s[i] != '&' && s[i] != '<' && s[i] != '>' && s[i] != ':';
  }

  predicate Bare(s: string) { Markless(s) && BracketFree(s) }

  lemma BareBoth(a: string, b: string)
    requires Bare(a) && Bare(b)
    ensures Bare(a + b)
  {
  }

  lemma BareWallet()
    ensures Bare("nostr+") && Bare("://")
  {
  }

  lemma BareConnect()
    ensures Bare("walletconnect")
  {
  }

  lemma BareSwap()
    ensures Bare("lightning+")
  {
  }

  lemma BareSwapConnect()
    ensures Bare("swapconnect")
  {
  }

  lemma BareHost()
    ensures Bare("swap.example/")
  {
  }

  lemma SchemeBare()
    ensures Bare(NWC_SCHEME) && |NWC_SCHEME| == 22 && NWC_SCHEME[19..22] == "://"
  {
    hide Bare;
    BareWallet();
    BareConnect();
    BareBoth("nostr+", "walletconnect");
    BareBoth("nostr+" + "walletconnect", "://");
  }

  lemma HostBare()
    ensures Bare(LSC_HOST) && |LSC_HOST| == 37 && LSC_HOST[21..24] == "://"
  {
    hide Bare;
    BareWallet();
    BareSwap();
    BareSwapConnect();
    BareHost();
    BareBoth("lightning+", "swapconnect");
    BareBoth("lightning+" + "swapconnect", "://");
    BareBoth("lightning+" + "swapconnect" + "://", "swap.example/");
  }

  lemma NwcValues(key: string, secret: string)
    requires Hex(key) && HexLong(secret)
    ensures SecretValues(Nwc(key, secret)) == [secret] && BracketFree(Nwc(key, secret)) && !Plain(Nwc(key, secret))
  {
    hide SecretValues;
    SchemeBare();
    HexBare(key);
    HexBare(secret);
    hide NWC_SCHEME, Hex;
    var code := Nwc(key, secret);
    SkipHost(NWC_SCHEME + key, "?secret=" + secret);
    ValueEnds("?secret=", secret);
    assert code == (NWC_SCHEME + key) + ("?secret=" + secret);
    assert BracketFree("?secret=");
    assert code[19..22] == NWC_SCHEME[19..22];
    assert At(code, "://", 19);
  }

  lemma LscValues(key: string, secret: string)
    requires HexLong(key) && HexLong(secret)
    ensures SecretValues(Lsc(key, secret)) == [key, secret] && BracketFree(Lsc(key, secret)) && !Plain(Lsc(key, secret))
  {
    hide SecretValues;
    HostBare();
    HexBare(key);
    HexBare(secret);
    hide LSC_HOST, Hex;
    var code, rest := Lsc(key, secret), "&secret=" + secret;
    SkipHost(LSC_HOST, "?key=" + key + rest);
    KeyThen(key, rest);
    ValueEnds("&secret=", secret);
    assert code == LSC_HOST + ("?key=" + key + rest);
    assert BracketFree("?key=") && BracketFree("&secret=");
    assert code[21..24] == LSC_HOST[21..24];
    assert At(code, "://", 21);
  }

  function Loaded(key: string, secret: string, lscKey: string, lscSecret: string): seq<string> {
    [Nwc(key, secret), Lsc(lscKey, lscSecret)]
  }

  lemma LoadedCodes(key: string, secret: string, lscKey: string, lscSecret: string)
    requires Hex64(key) && Hex64(secret) && HexLong(lscKey) && HexLong(lscSecret)
    ensures var codes := Loaded(key, secret, lscKey, lscSecret);
            WalletCodes(codes, 2) && |codes| == 2 && forall code <- codes :: HexCode(code)
  {
    hide SecretValues, Plain, BracketFree, Nwc, Lsc, Hex;
    NwcValues(key, secret);
    LscValues(lscKey, lscSecret);
  }

  lemma HostWindow()
    ensures |LSC_HOST| > WINDOW && !Plain(LSC_HOST) && NonHexIn(Slice(LSC_HOST, 0), 0)
  {
    HostBare();
    assert At(LSC_HOST, "://", 21);
    assert Slice(LSC_HOST, 0)[0] == 'l' && !IsHex('l');
  }

  /** A failing input: a swap code without a value behind any complete wallet code. */
  lemma ValuelessLscLeaks(key: string, secret: string)
    requires Hex64(key) && Hex64(secret)
    ensures !AlwaysCleared([Nwc(key, secret), LSC_HOST])
  {
    HostWindow();
    HostBare();
    hide SecretValues, AlwaysCleared, LSC_HOST, Nwc, Hex, Contains, Run, Plain, NonHexIn, ContainsSecret, Slice;
    var uris, w := [Nwc(key, secret), LSC_HOST], Slice(LSC_HOST, 0);
    NoMarker(LSC_HOST);
    NwcValues(key, secret);
    RunFirst(LSC_HOST);
    HexMisses(w, [Nwc(key, secret)]);
    UriLeaks(uris, LSC_HOST, w);
  }

  lemma RunFirst(m: string)
    requires |m| >= WINDOW
    ensures Run(m, Slice(m, 0))
  {
    ContainsSlice(m, 0, WINDOW);
  }

  /** Failing inputs behind the loaded codes, and two that are cleared although a token of the list
      spells them: the passwords `N` and `NWC` are replaced last, by a token without them. */
  lemma SpelledPasswords(key: string, secret: string, lscKey: string, lscSecret: string)
    requires Hex64(key) && Hex64(secret) && HexLong(lscKey) && HexLong(lscSecret)
    ensures var codes := Loaded(key, secret, lscKey, lscSecret);
            && !AlwaysCleared(codes + ["SECRET"]) && !AlwaysCleared(codes + ["RET"]) && !AlwaysCleared(codes + ["C"])
            && AlwaysCleared(codes + ["N"]) && AlwaysCleared(codes + ["NWC"])
  {
    hide AlwaysCleared, WalletCode, HexCode, Loaded, Contains, Hex64, HexLong, SecretValues;
    var codes := Loaded(key, secret, lscKey, lscSecret);
    LoadedCodes(key, secret, lscKey, lscSecret);
    forall pw | pw in ["SECRET", "RET", "C", "N", "NWC"]
      ensures AlwaysCleared(codes + [pw]) <==> !Contains("<SECRET>", pw)
    {
      PlainPassword(pw);
      ShortPassword(codes, pw);
    }
    Spelled();
  }

  lemma PlainPassword(pw: string)
    requires pw in ["SECRET", "RET", "C", "N", "NWC"]
    ensures Password(pw) && BracketFree(pw) && Token(2, pw) == "<SECRET>"
  {
    hide SecretValues;
    NoMarker(pw);
    CharMissing(pw, "://", ':');
  }

  lemma Spelled()
    ensures Contains("<SECRET>", "SECRET") && Contains("<SECRET>", "RET") && Contains("<SECRET>", "C")
    ensures !Contains("<SECRET>", "N") && !Contains("<SECRET>", "NWC")
  {
    var t := "<SECRET>";
    assert t[1..7] == "SECRET" && t[4..7] == "RET" && t[3..4] == "C";
    assert At(t, "SECRET", 1) && At(t, "RET", 4) && At(t, "C", 3);
    CharMissing(t, "N", 'N');
    CharMissing(t, "NWC", 'N');
  }
}
