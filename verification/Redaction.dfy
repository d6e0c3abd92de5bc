/** Secret redaction (`trials/harness/redact.ts`) and leak detection
    (`secretMaterials`, `leaks`, `containsSecret` in `trials/harness/checks.ts`). */
module Redaction {
  import opened Text

  type Word = w: string | w != "" witness "w"

  // ----- which parts of a wallet code are secret --------------------------------

  /** Length of a `?secret=`, `&secret=`, `?key=` or `&key=` marker that opens `s` and is
      followed by at least one value character, or 0. */
  function MarkerLength(s: string): (n: nat)
    ensures n == 0 || (n < |s| && s[n] != '&')
  {
    var n := if "?secret=" <= s || "&secret=" <= s then 8
             else if "?key=" <= s || "&key=" <= s then 5 else 0;
    if 0 < n < |s| && s[n] != '&' then n else 0
  }

  /** Number of characters before the first `&`. */
  function ValueLength(s: string): (n: nat)
    ensures n <= |s| && '&' !in s[..n] && (n < |s| ==> s[n] == '&')
  {
    if s == "" || s[0] == '&' then 0 else 1 + ValueLength(s[1..])
  }

  /** The value after a marker of length `n`. */
  function ValueAt(s: string, n: nat): (w: Word)
    requires n < |s| && s[n] != '&'
    ensures w == s[n..n + ValueLength(s[n..])]
  {
    s[n..n + ValueLength(s[n..])]
  }

  /** The matches of `[?&](?:secret|key)=([^&]+)`, left to right. */
  function SecretValues(s: string): seq<Word>
    decreases |s|
  {
    if s == "" then []
    else
      var n := MarkerLength(s);
      if n == 0 then SecretValues(s[1..])
      else
        var v := ValueLength(s[n..]);
        var value: Word := ValueAt(s, n);
        [value] + SecretValues(s[n + v..])
  }

  function SecretMaterials(uri: string): (ms: seq<string>)
    ensures ms != []
    ensures uri != "" ==> forall i :: 0 <= i < |ms| ==> ms[i] != ""
  {
    if SecretValues(uri) != [] then SecretValues(uri) else [uri]
  }

  lemma {:induction false} SecretValueOf(uri: string, m: string)
    requires m in SecretValues(uri)
    ensures m != "" && '&' !in m && |m| < |uri| && Contains(uri, m)
    decreases |uri|
  {
    var n := MarkerLength(uri);
    if n == 0 {
      SecretValueOf(uri[1..], m);
      ContainsTail(uri, 1);
      ContainsTransitive(uri, uri[1..], m);
    } else {
      var v := ValueLength(uri[n..]);
      if m == uri[n..n + v] {
        assert uri[n..][..v] == m;
        ContainsSlice(uri, n, n + v);
      } else {
        SecretValueOf(uri[n + v..], m);
        ContainsTail(uri, n + v);
        ContainsTransitive(uri, uri[n + v..], m);
      }
    }
  }

  lemma MaterialOf(uri: string, m: string)
    requires m in SecretMaterials(uri)
    ensures Contains(uri, m) && (uri != "" ==> m != "")
  {
    if SecretValues(uri) != [] { SecretValueOf(uri, m); } else { ContainsItself(uri); }
  }

  // ----- leak detection ----------------------------------------------------------

  const WINDOW: nat := 12

  /** `w` is a run of the material long enough to give it away. */
  predicate Run(material: string, w: string) {
    |w| == (if |material| < WINDOW then |material| else WINDOW) && Contains(material, w)
  }

  ghost predicate SharesRun(text: string, material: string) {
    exists w :: Run(material, w) && Contains(text, w)
  }

  ghost predicate ContainsSecret(text: string, uris: seq<string>) {
    exists uri, m :: uri in uris && m in SecretMaterials(uri) && SharesRun(text, m)
  }

  function Slice(material: string, i: nat): (window: string)
    requires i + WINDOW <= |material|
    ensures |window| == WINDOW
  {
    material[i..i + WINDOW]
  }

  lemma RunIsSlice(material: string, w: string)
    requires WINDOW <= |material| && Run(material, w)
    ensures exists k :: 0 <= k <= |material| - WINDOW && w == Slice(material, k)
  {
    var k :| 0 <= k <= |material| && At(material, w, k);
    assert w == Slice(material, k);
  }

  method Leaks(command: string, material: string) returns (leaked: bool)
    ensures leaked <==> SharesRun(command, material)
  {
    if |material| < WINDOW {
      ShortRun(material);
      return Contains(command, material);
    }
    var i := 0;
    while i <= |material| - WINDOW
      invariant 0 <= i <= |material| - WINDOW + 1
      invariant forall k :: 0 <= k < i ==> !Contains(command, Slice(material, k))
    {
      if Contains(command, Slice(material, i)) {
        ContainsSlice(material, i, i + WINDOW);
        assert Run(material, Slice(material, i));
        return true;
      }
      i := i + 1;
    }
    if SharesRun(command, material) {
      var w :| Run(material, w) && Contains(command, w);
      RunIsSlice(material, w);
    }
    return false;
  }

  lemma ShortRun(m: string)
    requires |m| <= WINDOW
    ensures forall w :: Run(m, w) <==> w == m
  {
    ContainsItself(m);
    forall w | Run(m, w) ensures w == m {
      var i :| 0 <= i <= |m| && At(m, w, i);
    }
  }

  // ----- redaction ---------------------------------------------------------------

  datatype Step = Step(sep: Word, token: string)
  datatype Owned = Owned(material: Word, token: string)

  predicate Plain(uri: string) { !Contains(uri, "://") }

  function Token(index: nat, uri: string): string {
    if index == 0 then "<NWC>" else if Plain(uri) then "<SECRET>" else "<LSC>"
  }

  /** The replacements of the first pass, one per nonempty code. */
  function UriStep(uri: string, index: nat): seq<Step> {
    if uri == "" then [] else [Step(uri, Token(index, uri))]
  }

  function UriSteps(uris: seq<string>, n: nat): seq<Step>
    requires n <= |uris|
  {
    if n == 0 then [] else UriSteps(uris, n - 1) + UriStep(uris[n - 1], n - 1)
  }

  /** One material of a code: owned unless the code is a URI that carries no value. */
  function OwnedMaterial(uri: string, token: string, material: Word): seq<Owned> {
    if material != uri || Plain(uri) then [Owned(material, token)] else []
  }

  function OwnedOf(uri: string, token: string, materials: seq<Word>, n: nat): seq<Owned>
    requires n <= |materials|
  {
    if n == 0 then []
    else OwnedOf(uri, token, materials, n - 1) + OwnedMaterial(uri, token, materials[n - 1])
  }

  function OwnedBy(uri: string, index: nat): seq<Owned> {
    if uri == "" then []
    else OwnedOf(uri, Token(index, uri), SecretMaterials(uri), |SecretMaterials(uri)|)
  }

  function AllOwned(uris: seq<string>, n: nat): seq<Owned>
    requires n <= |uris|
  {
    if n == 0 then [] else AllOwned(uris, n - 1) + OwnedBy(uris[n - 1], n - 1)
  }

  /** The stable library sort by material length, longest first. */
  function InsertByLength(o: Owned, sorted: seq<Owned>): (r: seq<Owned>)
    ensures multiset(r) == multiset(sorted) + multiset{o}
  {
    if sorted == [] || |o.material| >= |sorted[0].material| then [o] + sorted
    else
      assert sorted == [sorted[0]] + sorted[1..];
      [sorted[0]] + InsertByLength(o, sorted[1..])
  }

  function LongestFirst(owned: seq<Owned>): (r: seq<Owned>)
    ensures multiset(r) == multiset(owned)
  {
    if owned == [] then []
    else
      assert owned == [owned[0]] + owned[1..];
      InsertByLength(owned[0], LongestFirst(owned[1..]))
  }

  /** The windows of `o` that start before `n`. */
  function WindowSteps(o: Owned, n: nat): seq<Step>
    requires n + WINDOW <= |o.material| + 1
  {
    if n == 0 then []
    else WindowSteps(o, n - 1) + [Step(Slice(o.material, n - 1), o.token)]
  }

  function StepsOf(o: Owned): seq<Step> {
    [Step(o.material, o.token)]
    + if |o.material| < WINDOW then [] else WindowSteps(o, |o.material| - WINDOW + 1)
  }

  function OwnedSteps(owned: seq<Owned>, n: nat): seq<Step>
    requires n <= |owned|
  {
    if n == 0 then [] else OwnedSteps(owned, n - 1) + StepsOf(owned[n - 1])
  }

  /** Every replacement `redact` makes, in order. */
  function Steps(uris: seq<string>): seq<Step> {
    var owned := LongestFirst(AllOwned(uris, |uris|));
    UriSteps(uris, |uris|) + OwnedSteps(owned, |owned|)
  }

  function Apply(text: string, steps: seq<Step>): string
    decreases |steps|
  {
    if steps == [] then text
    else
      var last := steps[|steps| - 1];
      ReplaceAll(Apply(text, steps[..|steps| - 1]), last.sep, last.token)
  }

  lemma ApplyOne(text: string, steps: seq<Step>, st: Step)
    requires st.sep != ""
    ensures Apply(text, steps + [st]) == ReplaceAll(Apply(text, steps), st.sep, st.token)
  {
    assert (steps + [st])[..|steps|] == steps;
  }

  lemma {:induction false} ApplyAppend(text: string, a: seq<Step>, b: seq<Step>)
    ensures Apply(text, a + b) == Apply(Apply(text, a), b)
    decreases |b|
  {
    if b == [] {
      assert a + b == a;
    } else {
      ApplyAppend(text, a, b[..|b| - 1]);
      assert (a + b)[..|a + b| - 1] == a + b[..|b| - 1];
    }
  }

  lemma NextCode(text: string, uris: seq<string>, n: nat)
    requires n < |uris|
    ensures AllOwned(uris, n + 1) == AllOwned(uris, n) + OwnedBy(uris[n], n)
    ensures Apply(text, UriSteps(uris, n + 1))
         == if uris[n] == "" then Apply(text, UriSteps(uris, n))
            else ReplaceAll(Apply(text, UriSteps(uris, n)), uris[n], Token(n, uris[n]))
  {
    hide ReplaceAll, OwnedBy;
    var steps, step := UriSteps(uris, n), UriStep(uris[n], n);
    assert UriSteps(uris, n + 1) == steps + step;
    if uris[n] == "" { assert steps + step == steps; } else { ApplyOne(text, steps, step[0]); }
  }

  /** The first pass: whole codes, collecting what each one owns. */
  method RedactCodes(text: string, uris: seq<string>) returns (out: string, owned: seq<Owned>)
    ensures out == Apply(text, UriSteps(uris, |uris|))
    ensures owned == AllOwned(uris, |uris|)
  {
    out := text;
    owned := [];
    assert out == Apply(text, UriSteps(uris, 0)) && owned == AllOwned(uris, 0);
    hide Apply, UriSteps, AllOwned, ReplaceAll, OwnedOf, SecretMaterials;
    for index := 0 to |uris|
      invariant out == Apply(text, UriSteps(uris, index)) && owned == AllOwned(uris, index)
    {
      var uri := uris[index];
      NextCode(text, uris, index);
      if uri == "" {
        continue;
      }
      out := ReplaceAll(out, uri, Token(index, uri));
      owned := PushOwned(uri, Token(index, uri), owned);
    }
  }

  method Redact(text: string, uris: seq<string>) returns (out: string)
    ensures out == Apply(text, Steps(uris))
  {
    var first, owned := RedactCodes(text, uris);
    var sorted := LongestFirst(owned);
    out := first;
    for j := 0 to |sorted|
      invariant out == Apply(first, OwnedSteps(sorted, j))
    {
      out := RedactOwned(out, sorted[j]);
      ApplyAppend(first, OwnedSteps(sorted, j), StepsOf(sorted[j]));
    }
    ApplyAppend(text, UriSteps(uris, |uris|), OwnedSteps(sorted, |sorted|));
  }

  /** One material of the second pass: whole, then each 12-character window. */
  method RedactOwned(text: string, o: Owned) returns (out: string)
    ensures out == Apply(text, StepsOf(o))
  {
    ghost var whole := [Step(o.material, o.token)];
    ApplyOne(text, [], whole[0]);
    assert [] + whole == whole;
    out := ReplaceAll(text, o.material, o.token);
    if |o.material| < WINDOW {
      return;
    }
    for i := 0 to |o.material| - WINDOW + 1
      invariant out == Apply(text, whole + WindowSteps(o, i))
    {
      var next := Step(Slice(o.material, i), o.token);
      ApplyOne(text, whole + WindowSteps(o, i), next);
      assert whole + WindowSteps(o, i) + [next] == whole + WindowSteps(o, i + 1);
      out := ReplaceAll(out, next.sep, next.token);
    }
  }

  /** The inner loop over one code's materials. */
  method PushOwned(uri: string, token: string, before: seq<Owned>) returns (owned: seq<Owned>)
    requires uri != ""
    ensures owned == before + OwnedOf(uri, token, SecretMaterials(uri), |SecretMaterials(uri)|)
  {
    hide Contains, SecretMaterials;
    var materials: seq<Word> := SecretMaterials(uri);
    owned := before;
    for i := 0 to |materials|
      invariant owned == before + OwnedOf(uri, token, materials, i)
    {
      owned := owned + OwnedMaterial(uri, token, materials[i]);
    }
  }

  // ----- what every replacement does to a word -------------------------------------

  predicate IsToken(token: string) {
    2 <= |token| < WINDOW && token[0] == '<' && token[|token| - 1] == '>'
  }

  /** The word is apart from every token that is put in. */
  predicate ApartFrom(w: string, steps: seq<Step>) {
    forall i :: 0 <= i < |steps| ==> Apart(w, steps[i].token)
  }

  /** A word apart from the tokens in the output was in the text and holds no separator: nothing
      removed comes back. */
  lemma {:induction false} ApplyApart(text: string, steps: seq<Step>, w: string)
    requires ApartFrom(w, steps) && Contains(Apply(text, steps), w)
    ensures Contains(text, w) && forall st <- steps :: !Contains(w, st.sep)
    decreases |steps|
  {
    hide Apart, Contains;
    if steps != [] {
      var front, last := steps[..|steps| - 1], steps[|steps| - 1];
      ReplaceApart(Apply(text, front), last.sep, last.token, w);
      ApplyApart(text, front, w);
      assert steps == front + [last];
    }
  }

  /** Without brackets, only a word that the token spells is not apart from it. */
  lemma BracketFreeApart(w: string, token: string)
    requires IsToken(token) && w != "" && '<' !in w && '>' !in w
    ensures Apart(w, token) <==> !Contains(token, w)
  {
    forall k | 0 < k < |w| ensures !SuffixMeets(w, token, k) && !SuffixMeets(token, w, k) {
      if k < |token| {
        assert w[|w| - k..][0] in w && token[..k][0] == '<';
        assert w[..k][k - 1] in w && token[|token| - k..][k - 1] == '>';
      }
    }
    assert '<' in token;
    CharMissing(w, token, '<');
  }

  lemma CharMissing(s: string, w: string, c: char)
    requires c in w && c !in s
    ensures !Contains(s, w)
  {
    var k :| 0 <= k < |w| && w[k] == c;
    forall i | 0 <= i <= |s| ensures !At(s, w, i) {
      if i + |w| <= |s| { assert s[i..i + |w|][k] == s[i + k] && s[i + k] in s; }
    }
  }

  lemma {:induction false} ApplyAbsent(text: string, steps: seq<Step>)
    requires forall st <- steps :: !Contains(text, st.sep)
    ensures Apply(text, steps) == text
    decreases |steps|
  {
    if steps != [] {
      ApplyAbsent(text, steps[..|steps| - 1]);
      ReplaceAbsent(text, steps[|steps| - 1].sep, steps[|steps| - 1].token);
    }
  }

  /** A word apart from the tokens survives redaction of some text exactly when it holds no
      separator. */
  lemma SurvivesIff(steps: seq<Step>, w: string)
    requires w != "" && ApartFrom(w, steps)
    ensures (exists text :: Contains(Apply(text, steps), w)) <==> forall st <- steps :: !Contains(w, st.sep)
  {
    hide Contains;
    if text :| Contains(Apply(text, steps), w) { ApplyApart(text, steps, w); }
    if forall st <- steps :: !Contains(w, st.sep) {
      ApplyAbsent(w, steps);
      ContainsItself(w);
      assert Contains(Apply(w, steps), w);
    }
  }

  // ----- where the separators come from ---------------------------------------------

  ghost predicate MaterialIn(uris: seq<string>, m: string) {
    exists uri :: uri in uris && uri != "" && m in SecretMaterials(uri)
  }

  /** A material the second pass cuts into windows: every one but a URI that is its own. */
  ghost predicate OwnedIn(uris: seq<string>, m: string) {
    exists uri :: uri in uris && uri != "" && m in SecretMaterials(uri) && (m != uri || Plain(uri))
  }

  /** A separator is a whole code, an owned material, or a window of one. */
  ghost predicate Origin(uris: seq<string>, st: Step) {
    && IsToken(st.token)
    && (st.sep in uris || exists m :: OwnedIn(uris, m) && (st.sep == m || Run(m, st.sep)))
  }

  lemma TokenIsToken(index: nat, uri: string)
    ensures IsToken(Token(index, uri))
  {
  }

  lemma {:induction false} UriStepOrigin(uris: seq<string>, n: nat, st: Step)
    requires n <= |uris| && st in UriSteps(uris, n)
    ensures IsToken(st.token) && st.sep in uris
  {
    if st in UriSteps(uris, n - 1) { UriStepOrigin(uris, n - 1, st); } else { TokenIsToken(n - 1, uris[n - 1]); }
  }

  lemma {:induction false} OwnedOfOrigin(uri: string, token: string, materials: seq<Word>, n: nat, o: Owned)
    requires n <= |materials| && o in OwnedOf(uri, token, materials, n)
    ensures o.material in materials && o.token == token && (o.material != uri || Plain(uri))
  {
    if o in OwnedOf(uri, token, materials, n - 1) { OwnedOfOrigin(uri, token, materials, n - 1, o); }
  }

  lemma OwnedByOrigin(uri: string, index: nat, o: Owned)
    requires o in OwnedBy(uri, index)
    ensures uri != "" && o.material in SecretMaterials(uri) && o.token == Token(index, uri)
    ensures o.material != uri || Plain(uri)
  {
    hide OwnedOf, SecretMaterials, Token, Plain;
    var materials := SecretMaterials(uri);
    OwnedOfOrigin(uri, Token(index, uri), materials, |materials|, o);
  }

  lemma {:induction false} OwnedOrigin(uris: seq<string>, n: nat, o: Owned)
    requires n <= |uris| && o in AllOwned(uris, n)
    ensures OwnedIn(uris, o.material) && IsToken(o.token)
  {
    hide OwnedBy, SecretMaterials, Token, IsToken, Plain;
    if o in AllOwned(uris, n - 1) {
      OwnedOrigin(uris, n - 1, o);
    } else {
      OwnedByOrigin(uris[n - 1], n - 1, o);
      TokenIsToken(n - 1, uris[n - 1]);
    }
  }

  lemma {:induction false} WindowOrigin(o: Owned, n: nat, st: Step)
    requires n + WINDOW <= |o.material| + 1 && st in WindowSteps(o, n)
    ensures Run(o.material, st.sep) && st.token == o.token
  {
    if st in WindowSteps(o, n - 1) {
      WindowOrigin(o, n - 1, st);
    } else {
      ContainsSlice(o.material, n - 1, n - 1 + WINDOW);
    }
  }

  lemma {:induction false} OwnedStepOrigin(owned: seq<Owned>, n: nat, st: Step) returns (o: Owned)
    requires n <= |owned| && st in OwnedSteps(owned, n)
    ensures o in owned && st.token == o.token && (st.sep == o.material || Run(o.material, st.sep))
  {
    if st in OwnedSteps(owned, n - 1) {
      o := OwnedStepOrigin(owned, n - 1, st);
    } else {
      o := owned[n - 1];
      if st != Step(o.material, o.token) { WindowOrigin(o, |o.material| - WINDOW + 1, st); }
    }
  }

  lemma SortKeeps(owned: seq<Owned>, o: Owned)
    ensures o in owned <==> o in LongestFirst(owned)
    ensures |LongestFirst(owned)| == |owned|
  {
    var sorted := LongestFirst(owned);
    assert multiset(sorted) == multiset(owned);
    assert o in owned <==> o in multiset(owned);
    assert o in sorted <==> o in multiset(sorted);
    assert |sorted| == |multiset(sorted)|;
  }

  lemma {:induction false} SecondPassOrigin(uris: seq<string>, owned: seq<Owned>, st: Step)
    requires owned == AllOwned(uris, |uris|)
    requires var sorted := LongestFirst(owned); st in OwnedSteps(sorted, |sorted|)
    ensures Origin(uris, st)
  {
    var sorted := LongestFirst(owned);
    var o := OwnedStepOrigin(sorted, |sorted|, st);
    SortKeeps(owned, o);
    OwnedOrigin(uris, |uris|, o);
  }

  lemma StepOrigin(uris: seq<string>, st: Step)
    requires st in Steps(uris)
    ensures Origin(uris, st)
  {
    if st in UriSteps(uris, |uris|) {
      UriStepOrigin(uris, |uris|, st);
    } else {
      SecondPassOrigin(uris, AllOwned(uris, |uris|), st);
    }
  }

  ghost predicate Separator(uris: seq<string>, sep: string) {
    exists st <- Steps(uris) :: st.sep == sep
  }

  lemma {:induction false} MaterialOwned(uri: string, token: string, materials: seq<Word>, n: nat, i: nat)
    requires i < n <= |materials| && (materials[i] != uri || Plain(uri))
    ensures Owned(materials[i], token) in OwnedOf(uri, token, materials, n)
  {
    if i < n - 1 { MaterialOwned(uri, token, materials, n - 1, i); }
  }

  lemma {:induction false} OwnedKept(uris: seq<string>, n: nat, i: nat, o: Owned)
    requires i < n <= |uris| && o in OwnedBy(uris[i], i)
    ensures o in AllOwned(uris, n)
  {
    hide OwnedBy;
    var front := AllOwned(uris, n - 1);
    if i < n - 1 {
      OwnedKept(uris, n - 1, i, o);
      assert o in front;
    }
    assert AllOwned(uris, n) == front + OwnedBy(uris[n - 1], n - 1);
  }

  lemma {:induction false} WindowStep(o: Owned, n: nat, k: nat)
    requires k < n && n + WINDOW <= |o.material| + 1
    ensures Step(Slice(o.material, k), o.token) in WindowSteps(o, n)
  {
    if k < n - 1 { WindowStep(o, n - 1, k); }
  }

  lemma {:induction false} OwnedStepKept(owned: seq<Owned>, n: nat, i: nat, st: Step)
    requires i < n <= |owned| && st in StepsOf(owned[i])
    ensures st in OwnedSteps(owned, n)
  {
    if i < n - 1 { OwnedStepKept(owned, n - 1, i, st); }
  }

  lemma {:induction false} OwnedMaterialKept(uris: seq<string>, i: nat, m: Word) returns (o: Owned)
    requires i < |uris| && uris[i] != "" && m in SecretMaterials(uris[i])
    requires m != uris[i] || Plain(uris[i])
    ensures o.material == m && o in AllOwned(uris, |uris|)
  {
    var uri := uris[i];
    var materials: seq<Word> := SecretMaterials(uri);
    var k :| 0 <= k < |materials| && materials[k] == m;
    o := Owned(m, Token(i, uri));
    MaterialOwned(uri, o.token, materials, |materials|, k);
    OwnedKept(uris, |uris|, i, o);
  }

  lemma RunStep(o: Owned, w: string) returns (st: Step)
    requires Run(o.material, w)
    ensures st in StepsOf(o) && st.sep == w
  {
    var m := o.material;
    if |m| < WINDOW {
      ShortRun(m);
      st := Step(m, o.token);
    } else {
      RunIsSlice(m, w);
      var at :| 0 <= at <= |m| - WINDOW && w == Slice(m, at);
      WindowStep(o, |m| - WINDOW + 1, at);
      st := Step(w, o.token);
    }
  }

  /** Every run of an owned material is itself replaced. */
  lemma RunIsSeparator(uris: seq<string>, uri: string, m: string, w: string)
    requires uri in uris && uri != "" && m in SecretMaterials(uri) && Run(m, w)
    requires m != uri || Plain(uri)
    ensures Separator(uris, w)
  {
    var i :| 0 <= i < |uris| && uris[i] == uri;
    var o := OwnedMaterialKept(uris, i, m);
    var st := RunStep(o, w);
    var all := AllOwned(uris, |uris|);
    SortKeeps(all, o);
    var sorted := LongestFirst(all);
    var j :| 0 <= j < |sorted| && sorted[j] == o;
    OwnedStepKept(sorted, |sorted|, j, st);
    assert st in Steps(uris);
  }
}
