/** The logic of src/components/DetailedDiffView.tsx: the character-level
    positional diff drawn for a modified line, and the choice of what is
    shown for each difference. The rendered spans become values of `Span`. */
module DetailedDiffView {
  import opened FileProcessor

  datatype SpanKind = Same | RemovedChar | AddedChar

  /** One rendered `<span>`: its styling kind and the character it shows. */
  datatype Span = Span(kind: SpanKind, ch: char)

  function Min(a: nat, b: nat): nat
  {
    if a < b then a else b
  }

  // ---------------------------------------------------------------------
  // Character diff: specification
  // ---------------------------------------------------------------------

  /** The spans emitted at position `k` of both strings. */
  function SpansAt(oldText: string, newText: string, k: nat): seq<Span>
  {
    if k < |oldText| && k < |newText| && oldText[k] == newText[k] then
      [Span(Same, oldText[k])]
    else
      (if k < |oldText| then [Span(RemovedChar, oldText[k])] else [])
      + (if k < |newText| then [Span(AddedChar, newText[k])] else [])
  }

  /** The spans emitted for the positions below `k`. */
  function CharDiffUpTo(oldText: string, newText: string, k: nat): seq<Span>
  {
    if k == 0 then [] else CharDiffUpTo(oldText, newText, k - 1) + SpansAt(oldText, newText, k - 1)
  }

  function CharDiff(oldText: string, newText: string): seq<Span>
  {
    CharDiffUpTo(oldText, newText, Max(|oldText|, |newText|))
  }

  /** The characters a reader sees struck through or kept: the old text. */
  function OldSide(spans: seq<Span>): string
  {
    if spans == [] then ""
    else OldSide(spans[..|spans| - 1]) + (if spans[|spans| - 1].kind != AddedChar then [spans[|spans| - 1].ch] else [])
  }

  /** The characters a reader sees highlighted or kept: the new text. */
  function NewSide(spans: seq<Span>): string
  {
    if spans == [] then ""
    else NewSide(spans[..|spans| - 1]) + (if spans[|spans| - 1].kind != RemovedChar then [spans[|spans| - 1].ch] else [])
  }

  /** One span of the given kind per character of `s`. */
  function Run(kind: SpanKind, s: string): (spans: seq<Span>)
    ensures |spans| == |s|
  {
    seq(|s|, p requires 0 <= p < |s| => Span(kind, s[p]))
  }

  // ---------------------------------------------------------------------
  // Character diff: properties
  // ---------------------------------------------------------------------

  lemma {:induction false} OldSideAppend(a: seq<Span>, b: seq<Span>)
    ensures OldSide(a + b) == OldSide(a) + OldSide(b)
    decreases |b|
  {
    if b != [] {
      var b' := b[..|b| - 1];
      assert (a + b)[..|a + b| - 1] == a + b';
      OldSideAppend(a, b');
    } else {
      assert a + b == a;
    }
  }

  lemma {:induction false} NewSideAppend(a: seq<Span>, b: seq<Span>)
    ensures NewSide(a + b) == NewSide(a) + NewSide(b)
    decreases |b|
  {
    if b != [] {
      var b' := b[..|b| - 1];
      assert (a + b)[..|a + b| - 1] == a + b';
      NewSideAppend(a, b');
    } else {
      assert a + b == a;
    }
  }

  /** Each position contributes its old character, if any, to the old side
      and its new character, if any, to the new side. */
  lemma SidesAt(oldText: string, newText: string, k: nat)
    ensures OldSide(SpansAt(oldText, newText, k)) == (if k < |oldText| then [oldText[k]] else [])
    ensures NewSide(SpansAt(oldText, newText, k)) == (if k < |newText| then [newText[k]] else [])
  {
    var here := SpansAt(oldText, newText, k);
    if k < |oldText| && k < |newText| && oldText[k] == newText[k] {
      assert here[..0] == [];
    } else {
      var r := if k < |oldText| then [Span(RemovedChar, oldText[k])] else [];
      var a := if k < |newText| then [Span(AddedChar, newText[k])] else [];
      assert here == r + a;
      OldSideAppend(r, a);
      NewSideAppend(r, a);
      if r != [] { assert r[..0] == []; }
      if a != [] { assert a[..0] == []; }
    }
  }

  /** Extending a prefix of `t` by the character at the next position, if any. */
  lemma PrefixStep(t: string, k: nat, a: string, b: string)
    requires 0 < k
    requires a == t[..Min(k - 1, |t|)]
    requires b == (if k - 1 < |t| then [t[k - 1]] else [])
    ensures a + b == t[..Min(k, |t|)]
  {
    if k - 1 < |t| {
      assert t[..k] == t[..k - 1] + [t[k - 1]];
    }
  }

  /** One more position adds its old character, if any, to the old side. */
  lemma OldSideStep(oldText: string, newText: string, k: nat)
    requires 0 < k
    ensures OldSide(CharDiffUpTo(oldText, newText, k))
         == OldSide(CharDiffUpTo(oldText, newText, k - 1)) + (if k - 1 < |oldText| then [oldText[k - 1]] else [])
  {
    OldSideAppend(CharDiffUpTo(oldText, newText, k - 1), SpansAt(oldText, newText, k - 1));
    SidesAt(oldText, newText, k - 1);
  }

  /** One more position adds its new character, if any, to the new side. */
  lemma NewSideStep(oldText: string, newText: string, k: nat)
    requires 0 < k
    ensures NewSide(CharDiffUpTo(oldText, newText, k))
         == NewSide(CharDiffUpTo(oldText, newText, k - 1)) + (if k - 1 < |newText| then [newText[k - 1]] else [])
  {
    NewSideAppend(CharDiffUpTo(oldText, newText, k - 1), SpansAt(oldText, newText, k - 1));
    SidesAt(oldText, newText, k - 1);
  }

  lemma {:induction false} OldSideUpTo(oldText: string, newText: string, k: nat)
    ensures OldSide(CharDiffUpTo(oldText, newText, k)) == oldText[..Min(k, |oldText|)]
  {
    if k > 0 {
      var step := if k - 1 < |oldText| then [oldText[k - 1]] else [];
      calc {
        OldSide(CharDiffUpTo(oldText, newText, k));
        { OldSideStep(oldText, newText, k); }
        OldSide(CharDiffUpTo(oldText, newText, k - 1)) + step;
        { OldSideUpTo(oldText, newText, k - 1); }
        oldText[..Min(k - 1, |oldText|)] + step;
        { PrefixStep(oldText, k, oldText[..Min(k - 1, |oldText|)], step); }
        oldText[..Min(k, |oldText|)];
      }
    }
  }

  lemma {:induction false} NewSideUpTo(oldText: string, newText: string, k: nat)
    ensures NewSide(CharDiffUpTo(oldText, newText, k)) == newText[..Min(k, |newText|)]
  {
    if k > 0 {
      var step := if k - 1 < |newText| then [newText[k - 1]] else [];
      calc {
        NewSide(CharDiffUpTo(oldText, newText, k));
        { NewSideStep(oldText, newText, k); }
        NewSide(CharDiffUpTo(oldText, newText, k - 1)) + step;
        { NewSideUpTo(oldText, newText, k - 1); }
        newText[..Min(k - 1, |newText|)] + step;
        { PrefixStep(newText, k, newText[..Min(k - 1, |newText|)], step); }
        newText[..Min(k, |newText|)];
      }
    }
  }

  /** Lossless reconstruction: the kept and struck-through characters spell
      the old text, the kept and highlighted characters the new text. */
  lemma Reconstruction(oldText: string, newText: string)
    ensures OldSide(CharDiff(oldText, newText)) == oldText
    ensures NewSide(CharDiff(oldText, newText)) == newText
  {
    OldSideUpTo(oldText, newText, Max(|oldText|, |newText|));
    NewSideUpTo(oldText, newText, Max(|oldText|, |newText|));
    assert oldText[..|oldText|] == oldText;
    assert newText[..|newText|] == newText;
  }

  /** Equal texts are shown as one kept span per character. */
  lemma {:induction false} SelfDiffUpTo(s: string, k: nat)
    requires k <= |s|
    ensures CharDiffUpTo(s, s, k) == Run(Same, s[..k])
  {
    if k > 0 {
      SelfDiffUpTo(s, k - 1);
      assert Run(Same, s[..k]) == Run(Same, s[..k - 1]) + [Span(Same, s[k - 1])];
    }
  }

  lemma CharDiffSelf(s: string)
    ensures CharDiff(s, s) == Run(Same, s)
  {
    SelfDiffUpTo(s, |s|);
    assert s[..|s|] == s;
  }

  /** Below the shorter length, only the common prefix of lengths matters. */
  lemma {:induction false} CharDiffUpToTruncate(oldText: string, newText: string, k: nat)
    requires k <= |oldText| <= |newText|
    ensures CharDiffUpTo(oldText, newText, k) == CharDiffUpTo(oldText, newText[..|oldText|], k)
  {
    if k > 0 {
      CharDiffUpToTruncate(oldText, newText, k - 1);
    }
  }

  lemma {:induction false} AddedTailUpTo(oldText: string, newText: string, k: nat)
    requires |oldText| <= k <= |newText|
    ensures CharDiffUpTo(oldText, newText, k)
         == CharDiffUpTo(oldText, newText, |oldText|) + Run(AddedChar, newText[|oldText|..k])
  {
    if k > |oldText| {
      AddedTailUpTo(oldText, newText, k - 1);
      assert Run(AddedChar, newText[|oldText|..k])
          == Run(AddedChar, newText[|oldText|..k - 1]) + [Span(AddedChar, newText[k - 1])];
    } else {
      assert Run(AddedChar, newText[|oldText|..k]) == [];
    }
  }

  lemma {:induction false} RemovedTailUpTo(oldText: string, newText: string, k: nat)
    requires |newText| <= k <= |oldText|
    ensures CharDiffUpTo(oldText, newText, k)
         == CharDiffUpTo(oldText, newText, |newText|) + Run(RemovedChar, oldText[|newText|..k])
  {
    if k > |newText| {
      RemovedTailUpTo(oldText, newText, k - 1);
      assert Run(RemovedChar, oldText[|newText|..k])
          == Run(RemovedChar, oldText[|newText|..k - 1]) + [Span(RemovedChar, oldText[k - 1])];
    } else {
      assert Run(RemovedChar, oldText[|newText|..k]) == [];
    }
  }

  /** Past the end of the old text, only added spans follow. */
  lemma TrailingAdditions(oldText: string, newText: string)
    requires |oldText| <= |newText|
    ensures CharDiff(oldText, newText) == CharDiff(oldText, newText[..|oldText|]) + Run(AddedChar, newText[|oldText|..])
  {
    AddedTailUpTo(oldText, newText, |newText|);
    CharDiffUpToTruncate(oldText, newText, |oldText|);
  }

  lemma {:induction false} CharDiffUpToTruncateOld(oldText: string, newText: string, k: nat)
    requires k <= |newText| <= |oldText|
    ensures CharDiffUpTo(oldText, newText, k) == CharDiffUpTo(oldText[..|newText|], newText, k)
  {
    if k > 0 {
      CharDiffUpToTruncateOld(oldText, newText, k - 1);
    }
  }

  /** Past the end of the new text, only removed spans follow. */
  lemma TrailingRemovals(oldText: string, newText: string)
    requires |newText| <= |oldText|
    ensures CharDiff(oldText, newText) == CharDiff(oldText[..|newText|], newText) + Run(RemovedChar, oldText[|newText|..])
  {
    RemovedTailUpTo(oldText, newText, |oldText|);
    CharDiffUpToTruncateOld(oldText, newText, |newText|);
  }

  // ---------------------------------------------------------------------
  // Character diff: the loop
  // ---------------------------------------------------------------------

  /** `renderCharacterDiff`: two cursors advance over the old and the new
      characters; `iterations` counts the rounds of the loop. */
  method RenderCharacterDiff(oldText: string, newText: string) returns (result: seq<Span>, ghost iterations: nat)
    ensures result == CharDiff(oldText, newText)
    ensures OldSide(result) == oldText && NewSide(result) == newText
    ensures iterations == Max(|oldText|, |newText|)
  {
    result := [];
    var i, j := 0, 0;
    iterations := 0;
    while i < |oldText| || j < |newText|
      invariant i == Min(iterations, |oldText|) && j == Min(iterations, |newText|)
      invariant iterations <= Max(|oldText|, |newText|)
      invariant result == CharDiffUpTo(oldText, newText, iterations)
      decreases |oldText| + |newText| - i - j
    {
      ghost var before := result;
      assert i < |oldText| ==> i == iterations;
      assert j < |newText| ==> j == iterations;
      if i < |oldText| && j < |newText| && oldText[i] == newText[j] {
        result := result + [Span(Same, oldText[i])];
        i := i + 1;
        j := j + 1;
      } else {
        if i < |oldText| {
          result := result + [Span(RemovedChar, oldText[i])];
          i := i + 1;
        }
        if j < |newText| {
          result := result + [Span(AddedChar, newText[j])];
          j := j + 1;
        }
      }
      assert result == before + SpansAt(oldText, newText, iterations);
      iterations := iterations + 1;
    }
    Reconstruction(oldText, newText);
  }

  // ---------------------------------------------------------------------
  // What is shown for one difference
  // ---------------------------------------------------------------------

  datatype Body =
    | CharacterChanges(before: string, after: string, changes: seq<Span>)
    | AddedContent(text: string)
    | RemovedContent(text: string)
    | NoBody

  /** One card of the detailed view: the badge, the 1-based line label and
      the body. */
  datatype Card = Card(badge: ChangeKind, lineNumber: nat, body: Body)

  function DetailCard(e: DiffEntry): (c: Card)
    ensures c.badge == e.kind && c.lineNumber == e.line + 1
    ensures c.body.CharacterChanges? <==> e.kind == Modified && Truthy(e.leftText) && Truthy(e.rightText)
    ensures c.body.CharacterChanges? ==>
      && c.body.before == e.leftText.value && c.body.after == e.rightText.value
      && c.body.changes == CharDiff(c.body.before, c.body.after)
      && OldSide(c.body.changes) == c.body.before && NewSide(c.body.changes) == c.body.after
    ensures c.body.AddedContent? <==> e.kind == Added && Truthy(e.rightText)
    ensures c.body.AddedContent? ==> c.body.text == e.rightText.value
    ensures c.body.RemovedContent? <==> e.kind == Removed && Truthy(e.leftText)
    ensures c.body.RemovedContent? ==> c.body.text == e.leftText.value
  {
    var body :=
      if e.kind == Modified && Truthy(e.leftText) && Truthy(e.rightText) then
        Reconstruction(e.leftText.value, e.rightText.value);
        CharacterChanges(e.leftText.value, e.rightText.value, CharDiff(e.leftText.value, e.rightText.value))
      else if e.kind == Added && Truthy(e.rightText) then AddedContent(e.rightText.value)
      else if e.kind == Removed && Truthy(e.leftText) then RemovedContent(e.leftText.value)
      else NoBody;
    Card(e.kind, e.line + 1, body)
  }

  /** Every difference the line diff produces gets a body: a modified line
      always shows its character diff, an added line its new text and a
      removed line its old text. */
  lemma EveryDifferenceHasBody(left: seq<string>, right: seq<string>)
    ensures forall k :: 0 <= k < |Diff(left, right)| ==>
      var e := Diff(left, right)[k];
      && DetailCard(e).body != NoBody
      && (e.kind == Modified ==> DetailCard(e).body.CharacterChanges?)
      && (e.kind == Added ==> DetailCard(e).body == AddedContent(LineAt(right, e.line)))
      && (e.kind == Removed ==> DetailCard(e).body == RemovedContent(LineAt(left, e.line)))
  {
    DiffCharacterised(left, right);
  }
}
