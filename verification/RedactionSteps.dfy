/** Which replacements redaction makes: the secret values of a code, the tokens, and the order of the
    passes. */
module RedactionSteps {
  import opened Text
  import opened Redaction

  // ----- secret values ---------------------------------------------------------------------------

  predicate IsMarker(w: string) { w == "?secret=" || w == "&secret=" || w == "?key=" || w == "&key=" }

  /** One of the four markers, `n` characters long, starts at `i`. */
  predicate MarkedAt(s: string, i: nat, n: nat) {
    i + n <= |s| && IsMarker(s[i..i + n])
  }

  /** The text from `i` to `end`: all of it up to the next ampersand, or to the end of the text. */
  predicate UpToAmpersand(s: string, i: nat, end: nat) {
    i < end <= |s| && (forall k :: i <= k < end ==> s[k] != '&') && (end == |s| || s[end] == '&')
  }

  /** An ampersand stands after `j`, at `i` or before it. */
  predicate Cut(s: string, j: nat, i: nat) {
    i < |s| && exists k :: j < k <= i && s[k] == '&'
  }

  function Between(s: string, i: nat, end: nat): string
    requires i <= end <= |s|
  {
    s[i..end]
  }

  /** A marker at `i` names a value: there is one, and no earlier marker's value reaches over it. */
  ghost predicate ValueMarker(s: string, i: nat, n: nat, end: nat) {
    && i + n < end <= |s| && MarkedAt(s, i, n) && UpToAmpersand(s, i + n, end)
    && forall j: nat, m: nat :: j < i && MarkedAt(s, j, m) ==> Cut(s, j, i)
  }

  /** `v` stands after some marker that names it. */
  ghost predicate Named(s: string, v: string) {
    exists i: nat, n: nat, end: nat :: i + n < end <= |s| && ValueMarker(s, i, n, end) && v == Between(s, i + n, end)
  }

  lemma MarkerShape(w: string)
    requires IsMarker(w)
    ensures |w| >= 5 && (w[0] == '?' || w[0] == '&') && forall k :: 0 < k < |w| ==> w[k] != '?' && w[k] != '&'
  {
  }

  lemma MarkedShape(s: string, i: nat, n: nat)
    requires MarkedAt(s, i, n)
    ensures i + n <= |s| && n >= 5 && (s[i] == '?' || s[i] == '&') && forall k :: i < k < i + n ==> s[k] != '?' && s[k] != '&'
  {
    var w := s[i..i + n];
    MarkerShape(w);
    hide IsMarker;
    forall k | i < k < i + n ensures s[k] != '?' && s[k] != '&' { assert s[k] == w[k - i]; }
    assert s[i] == w[0];
  }

  lemma MarkedHere(s: string, n: nat)
    requires MarkedAt(s, 0, n)
    ensures MarkerLength(s) == if n < |s| && s[n] != '&' then n else 0
  {
    var w := s[0..n];
    assert |w| == n && w <= s && w[1] == s[1];
  }

  lemma MarkerIs(s: string)
    requires MarkerLength(s) > 0
    ensures MarkedAt(s, 0, MarkerLength(s))
  {
  }

  lemma MarkedTail(s: string, k: nat, i: nat, n: nat)
    requires k <= |s|
    ensures MarkedAt(s[k..], i, n) <==> MarkedAt(s, k + i, n)
  {
    hide IsMarker;
    if k + i + n <= |s| { assert s[k..][i..i + n] == s[k + i..k + i + n]; }
  }

  lemma ValueTail(s: string, k: nat, i: nat, end: nat)
    requires k <= |s|
    ensures UpToAmpersand(s[k..], i, end) <==> UpToAmpersand(s, k + i, k + end)
    ensures i < end && k + end <= |s| ==> s[k..][i..end] == s[k + i..k + end]
  {
    var t := s[k..];
    assert forall x :: 0 <= x < |t| ==> t[x] == s[k + x];
    if UpToAmpersand(t, i, end) {
      forall x | k + i <= x < k + end ensures s[x] != '&' { assert s[x] == t[x - k]; }
    }
    if i < end && k + end <= |s| { assert t[i..end] == s[k + i..k + end]; }
  }

  lemma CutTail(s: string, k: nat, j: nat, i: nat)
    requires k <= |s|
    ensures Cut(s[k..], j, i) <==> Cut(s, k + j, k + i)
  {
    var t := s[k..];
    if Cut(t, j, i) {
      var x :| j < x <= i && t[x] == '&';
      assert s[k + x] == '&';
    }
    if Cut(s, k + j, k + i) {
      var x :| k + j < x <= k + i && s[x] == '&';
      assert t[x - k] == '&';
    }
  }

  /** Markers before `k` reach over none from `k` on. */
  ghost predicate Clear(s: string, k: nat) {
    forall j: nat, m: nat, i: nat, n: nat :: j < k <= i < |s| && MarkedAt(s, j, m) && MarkedAt(s, i, n) ==> Cut(s, j, i)
  }

  lemma MarkerAfter(s: string, k: nat, i: nat, n: nat, end: nat)
    requires k <= |s| && Clear(s, k)
    ensures ValueMarker(s[k..], i, n, end) <==> ValueMarker(s, k + i, n, k + end)
  {
    hide MarkedAt, UpToAmpersand, Cut;
    var t := s[k..];
    MarkedTail(s, k, i, n);
    ValueTail(s, k, i + n, end);
    if ValueMarker(s, k + i, n, k + end) {
      forall j: nat, m: nat | j < i && MarkedAt(t, j, m) ensures Cut(t, j, i) {
        MarkedTail(s, k, j, m);
        CutTail(s, k, j, i);
      }
    }
    if ValueMarker(t, i, n, end) {
      MarkedShape(s, k + i, n);
      forall j: nat, m: nat | j < k + i && MarkedAt(s, j, m) ensures Cut(s, j, k + i) {
        if k <= j {
          MarkedTail(s, k, j - k, m);
          CutTail(s, k, j - k, i);
        }
      }
    }
  }

  lemma MarkerBounds(s: string, i: nat, n: nat, end: nat)
    requires ValueMarker(s, i, n, end)
    ensures i + n < end <= |s|
  {
  }

  /** The values named from `k` on. */
  ghost predicate NamedFrom(s: string, k: nat, v: string) {
    exists i: nat, n: nat, end: nat :: k <= i && i + n < end <= |s| && ValueMarker(s, i, n, end) && v == Between(s, i + n, end)
  }

  lemma ValueAfter(s: string, k: nat, i: nat, n: nat, end: nat)
    requires k <= |s| && Clear(s, k) && (ValueMarker(s[k..], i, n, end) || ValueMarker(s, k + i, n, k + end))
    ensures ValueMarker(s[k..], i, n, end) && ValueMarker(s, k + i, n, k + end)
    ensures i + n < end && k + end <= |s| && Between(s[k..], i + n, end) == Between(s, k + i + n, k + end)
  {
    MarkerAfter(s, k, i, n, end);
    MarkerBounds(s[k..], i, n, end);
    MarkerBounds(s, k + i, n, k + end);
    hide ValueMarker;
    ValueTail(s, k, i + n, end);
  }

  lemma NamedTail(s: string, k: nat, v: string)
    requires k <= |s| && Clear(s, k)
    ensures Named(s[k..], v) <==> NamedFrom(s, k, v)
  {
    hide ValueMarker, Clear, Between;
    if Named(s[k..], v) { NamedOver(s, k, v); }
    if NamedFrom(s, k, v) { NamedUnder(s, k, v); }
  }

  lemma NamedOver(s: string, k: nat, v: string)
    requires k <= |s| && Clear(s, k) && Named(s[k..], v)
    ensures NamedFrom(s, k, v)
  {
    hide ValueMarker, Clear, Between;
    var t := s[k..];
    var i: nat, n: nat, end: nat :| i + n < end <= |t| && ValueMarker(t, i, n, end) && v == Between(t, i + n, end);
    hide Named, NamedFrom;
    ValueAfter(s, k, i, n, end);
    TailNamed(s, k, k + i, n, k + end);
  }

  lemma NamedUnder(s: string, k: nat, v: string)
    requires k <= |s| && Clear(s, k) && NamedFrom(s, k, v)
    ensures Named(s[k..], v)
  {
    hide ValueMarker, Clear, Between;
    var i: nat, n: nat, end: nat :| k <= i && i + n < end <= |s| && ValueMarker(s, i, n, end) && v == Between(s, i + n, end);
    hide Named, NamedFrom;
    ValueAfter(s, k, i - k, n, end - k);
    HereNamed(s[k..], i - k, n, end - k);
  }

  lemma TailNamed(s: string, k: nat, i: nat, n: nat, end: nat)
    requires k <= i && ValueMarker(s, i, n, end)
    ensures i + n < end <= |s| && NamedFrom(s, k, Between(s, i + n, end))
  {
  }

  lemma HereNamed(s: string, i: nat, n: nat, end: nat)
    requires ValueMarker(s, i, n, end)
    ensures i + n < end <= |s| && Named(s, Between(s, i + n, end))
  {
  }

  lemma ClearOne(s: string)
    requires s != "" && MarkerLength(s) == 0
    ensures Clear(s, 1)
  {
    hide MarkedAt, MarkerLength;
    forall j: nat, m: nat, i: nat, n: nat | j < 1 <= i < |s| && MarkedAt(s, j, m) && MarkedAt(s, i, n) ensures Cut(s, j, i) {
      MarkedHere(s, m);
      MarkedShape(s, 0, m);
      MarkedShape(s, i, n);
    }
  }

  lemma NotNamedHere(s: string, n: nat, end: nat)
    requires MarkerLength(s) == 0
    ensures !ValueMarker(s, 0, n, end)
  {
    hide MarkerLength, IsMarker;
    if MarkedAt(s, 0, n) {
      MarkedHere(s, n);
      MarkedShape(s, 0, n);
    }
  }

  lemma ValueEnds(s: string, n: nat)
    requires n < |s| && s[n] != '&'
    ensures UpToAmpersand(s, n, n + ValueLength(s[n..]))
  {
    var rest := s[n..];
    var v := ValueLength(rest);
    hide ValueLength;
    assert forall x :: 0 <= x < |rest| ==> rest[x] == s[n + x];
    forall k | n <= k < n + v ensures s[k] != '&' { assert rest[..v][k - n] == s[k]; }
    assert rest[0] == s[n];
  }

  lemma FirstValue(s: string)
    requires MarkerLength(s) > 0
    ensures var n := MarkerLength(s); var end := n + ValueLength(s[n..]);
            ValueMarker(s, 0, n, end) && SecretValues(s) == [s[n..end]] + SecretValues(s[end..])
  {
    MarkerIs(s);
    var n := MarkerLength(s);
    hide MarkedAt, MarkerLength;
    MarkedShape(s, 0, n);
    ValueEnds(s, n);
    hide UpToAmpersand, ValueLength;
  }

  lemma ClearValue(s: string, n: nat, end: nat)
    requires ValueMarker(s, 0, n, end)
    ensures Clear(s, end)
  {
    hide MarkedAt;
  }

  /** No marker starts inside the first value or its marker, and the first names that value only. */
  lemma OnlyFirst(s: string, n: nat, end: nat, i: nat, n': nat, end': nat)
    requires ValueMarker(s, 0, n, end) && ValueMarker(s, i, n', end') && i < end
    ensures i == 0 && n' == n && end' == end
  {
    hide IsMarker;
    MarkedShape(s, 0, n);
    if i > 0 {
      Uncut(s, n, end, i);
    } else {
      MarkedHere(s, n);
      MarkedHere(s, n');
      SameEnd(s, n, end, end');
    }
  }

  lemma Uncut(s: string, n: nat, end: nat, i: nat)
    requires MarkedAt(s, 0, n) && UpToAmpersand(s, n, end) && i < end
    ensures !Cut(s, 0, i)
  {
    MarkedShape(s, 0, n);
  }

  lemma SameEnd(s: string, i: nat, a: nat, b: nat)
    requires UpToAmpersand(s, i, a) && UpToAmpersand(s, i, b)
    ensures a == b
  {
  }

  lemma NamedNone(v: string)
    ensures !Named("", v)
  {
    forall i: nat, n: nat, end: nat ensures !ValueMarker("", i, n, end) { }
  }

  lemma NamedLater(s: string, v: string)
    requires s != "" && MarkerLength(s) == 0
    ensures Named(s, v) <==> NamedFrom(s, 1, v)
  {
    hide MarkedAt, UpToAmpersand, Cut, MarkerLength;
    forall n: nat, end: nat ensures !ValueMarker(s, 0, n, end) { NotNamedHere(s, n, end); }
    hide ValueMarker;
    forall i: nat, n: nat, end: nat ensures ValueMarker(s, i, n, end) ==> i + n < end <= |s| && i >= 1 { if ValueMarker(s, i, n, end) { MarkerBounds(s, i, n, end); } }
  }

  lemma NamedFirst(s: string, n: nat, end: nat, v: string)
    requires ValueMarker(s, 0, n, end)
    ensures n < end <= |s|
    ensures Named(s, v) <==> v == s[n..end] || NamedFrom(s, end, v)
  {
    MarkerBounds(s, 0, n, end);
    hide MarkedAt, UpToAmpersand, Cut, ValueMarker;
    forall i: nat, n': nat, end': nat
      ensures ValueMarker(s, i, n', end') ==> i + n' < end' <= |s| && (i < end ==> i == 0 && n' == n && end' == end)
    {
      if ValueMarker(s, i, n', end') {
        MarkerBounds(s, i, n', end');
        if i < end { OnlyFirst(s, n, end, i, n', end'); }
      }
    }
  }

  lemma NoValues()
    ensures SecretValues("") == []
  {
  }

  lemma NextValues(s: string)
    requires s != "" && MarkerLength(s) == 0
    ensures SecretValues(s) == SecretValues(s[1..])
  {
    hide MarkerLength;
  }

  /** The scan finds exactly the values that the markers name. */
  lemma {:induction false} ValuesExactly(s: string, v: string)
    ensures v in SecretValues(s) <==> Named(s, v)
    decreases |s|
  {
    hide MarkerLength, ValueMarker, Named, NamedFrom, Clear, SecretValues;
    if s == "" {
      NamedNone(v);
      NoValues();
    } else if MarkerLength(s) == 0 {
      ClearOne(s);
      NextValues(s);
      NamedLater(s, v);
      NamedTail(s, 1, v);
      ValuesExactly(s[1..], v);
    } else {
      var n := MarkerLength(s);
      var end := n + ValueLength(s[n..]);
      FirstValue(s);
      ClearValue(s, n, end);
      NamedFirst(s, n, end, v);
      NamedTail(s, end, v);
      ValuesExactly(s[end..], v);
    }
  }

  /** The materials of a code are the values its markers name, or the whole code when they name none. */
  lemma MaterialsExactly(uri: string, m: string)
    ensures m in SecretMaterials(uri) <==> if exists v :: Named(uri, v) then Named(uri, m) else m == uri
  {
    hide Named, SecretValues;
    ValuesExactly(uri, m);
    if SecretValues(uri) != [] {
      ValuesExactly(uri, SecretValues(uri)[0]);
    } else {
      forall v ensures !Named(uri, v) { ValuesExactly(uri, v); }
    }
  }

  // ----- tokens -----------------------------------------------------------------------------------

  /** A text that is just one of the codes, and holds none of those before it, reads after the first pass
      as the wallet, as the swap provider, or as a secret: the first code is the wallet's, and any other
      is the swap provider's if it is a URI. */
  lemma CodeReads(uris: seq<string>, n: nat)
    requires n < |uris| && uris[n] != "" && forall j :: 0 <= j < n ==> uris[j] == "" || !Contains(uris[n], uris[j])
    ensures n == 0 ==> Apply(uris[n], UriSteps(uris, n + 1)) == "<NWC>"
    ensures n > 0 && Contains(uris[n], "://") ==> Apply(uris[n], UriSteps(uris, n + 1)) == "<LSC>"
    ensures n > 0 && !Contains(uris[n], "://") ==> Apply(uris[n], UriSteps(uris, n + 1)) == "<SECRET>"
  {
    hide UriSteps, ReplaceAll, Apply;
    Untouched(uris, uris[n], n);
    NextCode(uris[n], uris, n);
    WholeReplaced(uris[n], Token(n, uris[n]));
  }

  lemma {:induction false} Untouched(uris: seq<string>, text: string, n: nat)
    requires n <= |uris| && forall j :: 0 <= j < n ==> uris[j] == "" || !Contains(text, uris[j])
    ensures Apply(text, UriSteps(uris, n)) == text
  {
    NoSteps(uris, text);
    hide ReplaceAll, Token, Apply, UriSteps, AllOwned, OwnedBy, Contains;
    if n > 0 {
      Untouched(uris, text, n - 1);
      NextCode(text, uris, n - 1);
      if uris[n - 1] != "" { ReplaceAbsent(text, uris[n - 1], Token(n - 1, uris[n - 1])); }
    }
  }

  lemma NoSteps(uris: seq<string>, text: string)
    ensures Apply(text, UriSteps(uris, 0)) == text
  {
  }

  lemma WholeReplaced(s: string, token: string)
    requires s != ""
    ensures ReplaceAll(s, s, token) == token
  {
    hide ReplaceAll;
    ReplaceUnfold(s, s, token);
    assert s[|s|..] == "";
    ReplaceShort("", s, token);
  }

  /** The first pass makes one replacement for each code that is not empty, in order, before anything
      else is replaced. */
  lemma {:induction false} FirstPass(uris: seq<string>, n: nat)
    requires n < |uris|
    ensures uris[n] == "" ==> UriSteps(uris, n + 1) == UriSteps(uris, n)
    ensures uris[n] != "" ==> |UriSteps(uris, n + 1)| == |UriSteps(uris, n)| + 1 && UriSteps(uris, n) <= UriSteps(uris, n + 1)
                              && UriSteps(uris, n + 1)[|UriSteps(uris, n)|].sep == uris[n]
    ensures UriSteps(uris, |uris|) <= Steps(uris)
  {
  }

  /** The second pass replaces each material whole and then every run of twelve characters of it, from
      left to right, with the token of its code. */
  lemma {:induction false} SecondPass(o: Owned)
    ensures var runs := if |o.material| < 12 then 0 else |o.material| - 11;
            && |StepsOf(o)| == 1 + runs && StepsOf(o)[0] == Step(o.material, o.token)
            && forall k :: 0 <= k < runs ==> |Slice(o.material, k)| == 12 && StepsOf(o)[1 + k] == Step(Slice(o.material, k), o.token)
  {
    if |o.material| >= 12 { WindowsAre(o, |o.material| - 11); }
  }

  lemma {:induction false} WindowsAre(o: Owned, n: nat)
    requires n + 12 <= |o.material| + 1
    ensures |WindowSteps(o, n)| == n
    ensures forall k :: 0 <= k < n ==> WindowSteps(o, n)[k] == Step(Slice(o.material, k), o.token)
  {
    if n > 0 { WindowsAre(o, n - 1); }
  }

  // ----- the order of the second pass --------------------------------------------------------------

  predicate Descending(owned: seq<Owned>) {
    forall i, j :: 0 <= i < j < |owned| ==> |owned[i].material| >= |owned[j].material|
  }

  /** Those of one length, in order. */
  function OfLength(owned: seq<Owned>, length: nat): seq<Owned> {
    if owned == [] then []
    else (if |owned[0].material| == length then [owned[0]] else []) + OfLength(owned[1..], length)
  }

  lemma {:induction false} InsertedInOrder(o: Owned, sorted: seq<Owned>)
    requires Descending(sorted)
    ensures Descending(InsertByLength(o, sorted))
    decreases |sorted|
  {
    if sorted != [] && |o.material| < |sorted[0].material| {
      var rest := InsertByLength(o, sorted[1..]);
      InsertedInOrder(o, sorted[1..]);
      forall j | 0 <= j < |rest| ensures |sorted[0].material| >= |rest[j].material| {
        assert rest[j] in multiset(sorted[1..]) + multiset{o};
        if rest[j] != o { assert rest[j] in sorted[1..]; }
      }
    }
  }

  lemma {:induction false} InsertedStably(o: Owned, sorted: seq<Owned>, length: nat)
    ensures Descending(sorted) ==> OfLength(InsertByLength(o, sorted), length) == OfLength([o] + sorted, length)
    decreases |sorted|
  {
    hide OfLength;
    if Descending(sorted) && sorted != [] && |o.material| < |sorted[0].material| {
      var first, rest := sorted[0], sorted[1..];
      InsertedStably(o, rest, length);
      assert sorted == [first] + rest;
      OfLengthCons(first, InsertByLength(o, rest), length);
      OfLengthCons(o, rest, length);
      OfLengthCons(o, sorted, length);
      OfLengthCons(first, rest, length);
    }
  }

  /** Longer materials come first, and those of one length in the order they were collected. */
  lemma {:induction false} SortedStably(owned: seq<Owned>, length: nat)
    ensures Descending(LongestFirst(owned))
    ensures OfLength(LongestFirst(owned), length) == OfLength(owned, length)
  {
    hide OfLength, InsertByLength;
    if owned == [] {
    } else {
      SortedStably(owned[1..], length);
      InsertedInOrder(owned[0], LongestFirst(owned[1..]));
      InsertedStably(owned[0], LongestFirst(owned[1..]), length);
      assert owned == [owned[0]] + owned[1..];
      OfLengthCons(owned[0], owned[1..], length);
      OfLengthCons(owned[0], LongestFirst(owned[1..]), length);
    }
  }

  lemma OfLengthCons(o: Owned, rest: seq<Owned>, length: nat)
    ensures OfLength([o] + rest, length) == (if |o.material| == length then [o] else []) + OfLength(rest, length)
  {
    assert ([o] + rest)[1..] == rest;
  }
}
