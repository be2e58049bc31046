/** Why the rewrite keeps a backend's prompt cache warm and loses nothing. */
module SystemMessageTheorems {
  import opened Wrappers
  import opened SystemMessages

  /** The conversation has started: some item is not a system item. */
  predicate Started(items: seq<Json>) {
    exists i | 0 <= i < |items| :: !IsSystem(items[i])
  }

  // --------------------------------------------------------- prefix stability

  lemma StartedSplit(items: seq<Json>)
    ensures Started(items) <==> items != [] && (!IsSystem(items[0]) || Started(items[1..]))
  {
    if items != [] {
      assert items == [items[0]] + items[1..];
      if Started(items) && IsSystem(items[0]) {
        var i :| 0 <= i < |items| && !IsSystem(items[i]);
        assert items[1..][i - 1] == items[i];
      }
      if Started(items[1..]) {
        var i :| 0 <= i < |items[1..]| && !IsSystem(items[1..][i]);
        assert items[i + 1] == items[1..][i];
      }
    }
  }

  /** Rewriting is a homomorphism, up to whether the conversation has started. */
  lemma {:induction false} RewrittenConcat(d: Dialect, a: seq<Json>, b: seq<Json>, started: bool, extend: bool)
    ensures Rewritten(d, a + b, started, extend) ==
            Rewritten(d, a, started, extend) + Rewritten(d, b, started || Started(a), extend)
  {
    hide Image, IsSystem, Started;
    StartedSplit(a);
    if a == [] {
      assert a + b == b;
    } else {
      assert (a + b)[0] == a[0] && (a + b)[1..] == a[1..] + b;
      RewrittenConcat(d, a[1..], b, started || !IsSystem(a[0]), extend);
    }
  }

  lemma {:induction false} LeadingConcat(a: seq<Json>, b: seq<Json>)
    requires Started(a)
    ensures Leading(a + b) == Leading(a)
  {
    hide ContentTexts, IsSystem, Started;
    StartedSplit(a);
    assert (a + b)[0] == a[0] && (a + b)[1..] == a[1..] + b;
    if IsSystem(a[0]) {
      LeadingConcat(a[1..], b);
    }
  }

  lemma {:induction false} NothingToRewrite(d: Dialect, items: seq<Json>, started: bool, extend: bool)
    requires !AnySystem(items)
    ensures Rewritten(d, items, started, extend) == items && Leading(items) == []
  {
    if items != [] {
      assert !AnySystem(items[1..]) by {
        assert forall i | 0 <= i < |items[1..]| :: items[1..][i] == items[i + 1];
      }
      assert !IsSystem(items[0]);
      NothingToRewrite(d, items[1..], true, extend);
    }
  }

  /** The body a rewrite of `items` under `prompt` produces, early return or not. */
  lemma RewriteForm(d: Dialect, body: Body, items: seq<Json>)
    requires Field(body, ListKey(d)) == Arr(items) && AllHashable(items)
    ensures var prompt := Field(body, PromptKey(d));
            var leading := LeadingTexts(items, CanExtend(d, prompt));
            var result := body[ListKey(d) := Arr(Rewritten(d, items, false, CanExtend(d, prompt)))];
            Rewrite(d, body) == Ok(if leading == [] then result else result[PromptKey(d) := Extended(d, prompt, leading)])
  {
    hide Extended, Rewritten, Leading, CanExtend;
    if !AnySystem(items) {
      NothingToRewrite(d, items, false, CanExtend(d, Field(body, PromptKey(d))));
      assert body[ListKey(d) := Arr(items)] == body;
    }
  }

  lemma HashablePrefix(items: seq<Json>, more: seq<Json>)
    requires AllHashable(items + more)
    ensures AllHashable(items)
  {
    assert forall i | 0 <= i < |items| :: (items + more)[i] == items[i];
  }

  /** Main theorem. If one request's list extends another's that already holds a
      conversation message, the rewritten shorter list is a prefix of the rewritten
      longer one, and the two bodies agree on the prompt and everything else. */
  lemma PrefixIsStable(d: Dialect, body: Body, items: seq<Json>, more: seq<Json>)
    requires Started(items) && AllHashable(items + more)
    ensures var short := Rewrite(d, body[ListKey(d) := Arr(items)]);
            var long := Rewrite(d, body[ListKey(d) := Arr(items + more)]);
            && short.Ok? && long.Ok?
            && Field(short.value, ListKey(d)).Arr? && Field(long.value, ListKey(d)).Arr?
            && Field(short.value, ListKey(d)).items <= Field(long.value, ListKey(d)).items
            && short.value - {ListKey(d)} == long.value - {ListKey(d)}
  {
    hide Extended, Rewritten, Leading, CanExtend, AllHashable, Started, Rewrite;
    var a, b := body[ListKey(d) := Arr(items)], body[ListKey(d) := Arr(items + more)];
    HashablePrefix(items, more);
    assert ListKey(d) != PromptKey(d) && Field(a, PromptKey(d)) == Field(b, PromptKey(d));
    RewriteForm(d, a, items);
    RewriteForm(d, b, items + more);
    RewrittenConcat(d, items, more, false, CanExtend(d, Field(body, PromptKey(d))));
    LeadingConcat(items, more);
  }

  // ------------------------------------------------------------- idempotence

  lemma ReminderIsUser(d: Dialect, content: Json)
    requires ReminderFor(d, content).Some?
    ensures !IsSystem(ReminderFor(d, content).value) && !Unhashable(ReminderFor(d, content).value)
  {
  }

  lemma ImageIsClean(d: Dialect, item: Json, started: bool, extend: bool)
    requires !Unhashable(item) && (started || extend)
    ensures forall i | 0 <= i < |Image(d, item, started, extend)| ::
              !IsSystem(Image(d, item, started, extend)[i]) && !Unhashable(Image(d, item, started, extend)[i])
  {
    if started && ReminderFor(d, Content(item)).Some? {
      ReminderIsUser(d, Content(item));
    }
  }

  /** Once the conversation has started, or when the prompt absorbs what precedes
      it, no system item is left. */
  lemma {:induction false} NoSystemLeft(d: Dialect, items: seq<Json>, started: bool, extend: bool)
    requires AllHashable(items) && (started || extend)
    ensures forall i | 0 <= i < |Rewritten(d, items, started, extend)| ::
              !IsSystem(Rewritten(d, items, started, extend)[i]) && !Unhashable(Rewritten(d, items, started, extend)[i])
  {
    hide Image, IsSystem, Unhashable;
    if items != [] {
      assert forall i | 0 <= i < |items[1..]| :: items[1..][i] == items[i + 1];
      ImageIsClean(d, items[0], started, extend);
      NoSystemLeft(d, items[1..], started || !IsSystem(items[0]), extend);
    }
  }

  /** Rewriting the rewritten list changes nothing. */
  lemma {:induction false} RewrittenTwice(d: Dialect, items: seq<Json>, extend: bool)
    requires AllHashable(items)
    ensures var out := Rewritten(d, items, false, extend);
            AllHashable(out) && Rewritten(d, out, false, extend) == out && LeadingTexts(out, extend) == []
  {
    var out := Rewritten(d, items, false, extend);
    if extend {
      NoSystemLeft(d, items, false, extend);
      NothingToRewrite(d, out, false, extend);
    } else if items != [] {
      assert forall i | 0 <= i < |items[1..]| :: items[1..][i] == items[i + 1];
      var rest := Rewritten(d, items[1..], !IsSystem(items[0]), extend);
      assert out == [items[0]] + rest && out[1..] == rest;
      if IsSystem(items[0]) {
        RewrittenTwice(d, items[1..], extend);
      } else {
        NoSystemLeft(d, items[1..], true, extend);
        NothingToRewrite(d, rest, true, extend);
      }
    }
  }

  /** Rewriting twice equals rewriting once, for both formats and every body. */
  lemma RewriteIsIdempotent(d: Dialect, body: Body)
    requires Rewrite(d, body).Ok?
    ensures Rewrite(d, Rewrite(d, body).value) == Rewrite(d, body)
  {
    var list := Field(body, ListKey(d));
    if list.Arr? {
      hide Rewritten, Leading, IsSystem, Unhashable;
      var items := list.items;
      var prompt := Field(body, PromptKey(d));
      var extend := CanExtend(d, prompt);
      var out := Rewritten(d, items, false, extend);
      var result := Rewrite(d, body).value;
      RewriteForm(d, body, items);
      RewrittenTwice(d, items, extend);
      assert ListKey(d) != PromptKey(d);
      assert Field(result, ListKey(d)) == Arr(out);
      RewriteForm(d, result, out);
      assert CanExtend(d, Field(result, PromptKey(d))) == extend;
      assert result[ListKey(d) := Arr(out)] == result;
    }
  }

  // ----------------------------------------------------- nothing lost or moved

  /** No system item follows one that is not. */
  ghost predicate SystemFirst(items: seq<Json>) {
    forall i, j | 0 <= i < j < |items| && !IsSystem(items[i]) :: !IsSystem(items[j])
  }

  lemma {:induction false} SystemStaysFirst(d: Dialect, items: seq<Json>, extend: bool)
    requires AllHashable(items)
    ensures SystemFirst(Rewritten(d, items, false, extend))
  {
    if extend {
      NoSystemLeft(d, items, false, extend);
    } else if items != [] {
      assert forall i | 0 <= i < |items[1..]| :: items[1..][i] == items[i + 1];
      var rest := Rewritten(d, items[1..], !IsSystem(items[0]), extend);
      assert Rewritten(d, items, false, extend) == [items[0]] + rest;
      if IsSystem(items[0]) {
        SystemStaysFirst(d, items[1..], extend);
      } else {
        NoSystemLeft(d, items[1..], true, extend);
      }
    }
  }

  /** Whether item i is represented in the rewritten list. */
  predicate Kept(items: seq<Json>, i: nat, extend: bool)
    requires i < |items|
  {
    || !IsSystem(items[i])
    || (Started(items[..i]) && ContentTexts(Content(items[i])) != [])
    || (!Started(items[..i]) && !extend)
  }

  /** The indexes of the kept items, in order. */
  function KeptIndexes(items: seq<Json>, extend: bool): (kept: seq<nat>)
    ensures forall k | 0 <= k < |kept| :: kept[k] < |items| && Kept(items, kept[k], extend)
  {
    if items == [] then []
    else
      var n := |items| - 1;
      var before := KeptIndexes(items[..n], extend);
      assert forall i | 0 <= i <= n :: items[..n][..i] == items[..i];
      before + if Kept(items, n, extend) then [n] else []
  }

  lemma {:induction false} KeptIndexesExact(items: seq<Json>, extend: bool)
    ensures forall i | 0 <= i < |items| :: Kept(items, i, extend) <==> i in KeptIndexes(items, extend)
    ensures forall j, k | 0 <= j < k < |KeptIndexes(items, extend)| ::
              KeptIndexes(items, extend)[j] < KeptIndexes(items, extend)[k]
  {
    if items != [] {
      var n := |items| - 1;
      KeptIndexesExact(items[..n], extend);
      assert forall i | 0 <= i <= n :: items[..n][..i] == items[..i];
      assert forall i | 0 <= i < n :: items[..n][i] == items[i];
    }
  }

  /** What a kept item looks like: itself, or the user turn that carries its texts. */
  function KeptForm(d: Dialect, items: seq<Json>, i: nat, extend: bool): Json
    requires i < |items| && Kept(items, i, extend)
  {
    if IsSystem(items[i]) && Started(items[..i]) then ReminderFor(d, Content(items[i])).value else items[i]
  }

  lemma ReminderExists(d: Dialect, content: Json)
    ensures ReminderFor(d, content).Some? <==> ContentTexts(content) != []
  {
  }

  lemma LastImage(d: Dialect, items: seq<Json>, extend: bool)
    requires items != []
    ensures var n := |items| - 1;
            Rewritten(d, [items[n]], Started(items[..n]), extend) ==
            if Kept(items, n, extend) then [KeptForm(d, items, n, extend)] else []
  {
    hide IsSystem, Started, ContentTexts;
    var n := |items| - 1;
    assert [items[n]][1..] == [] && [items[n]][0] == items[n];
    ReminderExists(d, Content(items[n]));
  }

  lemma KeptInPrefix(d: Dialect, items: seq<Json>, n: nat, i: nat, extend: bool)
    requires i < n <= |items|
    ensures Kept(items[..n], i, extend) == Kept(items, i, extend)
    ensures Kept(items, i, extend) ==> KeptForm(d, items[..n], i, extend) == KeptForm(d, items, i, extend)
  {
    assert items[..n][..i] == items[..i] && items[..n][i] == items[i];
  }

  /** `out` holds exactly the items at the given indexes, in their kept forms. */
  ghost predicate Lists(d: Dialect, items: seq<Json>, extend: bool, kept: seq<nat>, out: seq<Json>) {
    && |out| == |kept|
    && forall k | 0 <= k < |kept| ::
         kept[k] < |items| && Kept(items, kept[k], extend) && out[k] == KeptForm(d, items, kept[k], extend)
  }

  lemma ListsPrefix(d: Dialect, items: seq<Json>, n: nat, extend: bool, kept: seq<nat>, out: seq<Json>)
    requires n <= |items| && Lists(d, items[..n], extend, kept, out)
    ensures Lists(d, items, extend, kept, out)
  {
    hide Kept, KeptForm;
    forall k | 0 <= k < |kept|
      ensures kept[k] < |items| && Kept(items, kept[k], extend) && out[k] == KeptForm(d, items, kept[k], extend)
    {
      KeptInPrefix(d, items, n, kept[k], extend);
    }
  }

  lemma RewrittenSnoc(d: Dialect, items: seq<Json>, extend: bool)
    requires items != []
    ensures var n := |items| - 1;
            Rewritten(d, items, false, extend) ==
            Rewritten(d, items[..n], false, extend) + if Kept(items, n, extend) then [KeptForm(d, items, n, extend)] else []
  {
    hide Kept, KeptForm, Rewritten, Started;
    var n := |items| - 1;
    assert items == items[..n] + [items[n]];
    RewrittenConcat(d, items[..n], [items[n]], false, extend);
    LastImage(d, items, extend);
  }

  /** The rewritten list is exactly the kept items, in their order, each once: all
      conversation messages unchanged, and every later system message with text. */
  lemma {:induction false} RewriteKeepsOrder(d: Dialect, items: seq<Json>, extend: bool)
    ensures Lists(d, items, extend, KeptIndexes(items, extend), Rewritten(d, items, false, extend))
  {
    if items != [] {
      hide Kept, KeptForm, Rewritten, Started, KeptIndexes, IsSystem, ContentTexts;
      var n := |items| - 1;
      RewriteKeepsOrder(d, items[..n], extend);
      ListsPrefix(d, items, n, extend, KeptIndexes(items[..n], extend), Rewritten(d, items[..n], false, extend));
      RewrittenSnoc(d, items, extend);
      KeptUnfolds(items, extend);
    }
  }

  lemma KeptUnfolds(items: seq<Json>, extend: bool)
    requires items != []
    ensures var n := |items| - 1;
            KeptIndexes(items, extend) == KeptIndexes(items[..n], extend) + if Kept(items, n, extend) then [n] else []
  {
  }

  function Wrapped(texts: seq<string>): seq<string> {
    seq(|texts|, i requires 0 <= i < |texts| => Reminder(texts[i]))
  }

  lemma {:induction false} BlocksHaveText(blocks: seq<Json>)
    requires forall i | 0 <= i < |blocks| :: HasText(blocks[i])
    ensures PartsWithText(blocks) == blocks
  {
    if blocks != [] {
      BlocksHaveText(blocks[1..]);
    }
  }

  /** Blocks whose texts are the given ones. */
  ghost predicate Carry(blocks: seq<Json>, texts: seq<string>) {
    |blocks| == |texts| && forall i | 0 <= i < |blocks| :: HasText(blocks[i]) && TextOf(blocks[i]) == texts[i]
  }

  lemma BlocksCarry(d: Dialect, texts: seq<string>)
    ensures Carry(Blocks(d, texts), Wrapped(texts))
  {
  }

  lemma MarkerKeepsTexts(blocks: seq<Json>, marker: Option<Json>, texts: seq<string>)
    requires blocks != [] && Carry(blocks, texts)
    ensures Carry(WithMarker(blocks, marker), texts)
  {
  }

  lemma CarriedTexts(blocks: seq<Json>, texts: seq<string>)
    requires Carry(blocks, texts)
    ensures ContentTexts(Arr(blocks)) == texts
  {
    BlocksHaveText(blocks);
  }

  /** A reminder carries the texts of the message it replaces: all of them, each in
      its own envelope, in order. */
  lemma ReminderCarriesTexts(d: Dialect, content: Json)
    requires ReminderFor(d, content).Some?
    ensures ContentTexts(Content(ReminderFor(d, content).value)) == Wrapped(ContentTexts(content))
  {
    hide Carry, Wrapped, ContentTexts, Blocks, WithMarker, Reminder;
    var parts := TextParts(content);
    var texts := TextsOf(parts);
    var blocks := Blocks(d, texts);
    BlocksCarry(d, texts);
    TextsAre(content);
    BlocksNonEmpty(d, texts);
    if d.Messages? {
      MarkerKeepsTexts(blocks, LastMarker(parts), Wrapped(texts));
      CarriedTexts(WithMarker(blocks, LastMarker(parts)), Wrapped(texts));
    } else {
      CarriedTexts(blocks, Wrapped(texts));
    }
  }

  lemma TextsAre(content: Json)
    ensures ContentTexts(content) == TextsOf(TextParts(content))
  {
  }

  lemma BlocksNonEmpty(d: Dialect, texts: seq<string>)
    ensures |Blocks(d, texts)| == |texts| && forall i | 0 <= i < |texts| :: Blocks(d, texts)[i].Obj?
  {
  }

  /** The texts of all system items, in order. */
  function SystemTexts(items: seq<Json>): seq<string> {
    if items == [] then []
    else (if IsSystem(items[0]) then ContentTexts(Content(items[0])) else []) + SystemTexts(items[1..])
  }

  /** The texts of the system items behind the first conversation message. */
  function LaterTexts(items: seq<Json>, started: bool): seq<string> {
    if items == [] then []
    else (if IsSystem(items[0]) && started then ContentTexts(Content(items[0])) else [])
         + LaterTexts(items[1..], started || !IsSystem(items[0]))
  }

  lemma {:induction false} LaterIsAll(items: seq<Json>)
    ensures LaterTexts(items, true) == SystemTexts(items)
  {
    if items != [] {
      LaterIsAll(items[1..]);
    }
  }

  /** The texts in front of the conversation and those behind make up all of them. */
  lemma {:induction false} TextsSplit(items: seq<Json>)
    ensures Leading(items) + LaterTexts(items, false) == SystemTexts(items)
  {
    hide ContentTexts, IsSystem;
    if items != [] {
      if IsSystem(items[0]) {
        TextsSplit(items[1..]);
      } else {
        LaterIsAll(items[1..]);
      }
    }
  }

  lemma WrappedConcat(a: seq<string>, b: seq<string>)
    ensures Wrapped(a + b) == Wrapped(a) + Wrapped(b)
    ensures Wrapped([]) == []
  {
  }

  // -------------------------------------------------------- the prompt's forms

  function Flat(texts: seq<string>): string {
    if texts == [] then "" else texts[0] + Flat(texts[1..])
  }

  lemma {:induction false} FlatConcat(a: seq<string>, b: seq<string>)
    ensures Flat(a + b) == Flat(a) + Flat(b)
  {
    if a == [] {
      assert a + b == b;
    } else {
      assert (a + b)[1..] == a[1..] + b;
      FlatConcat(a[1..], b);
    }
  }

  lemma {:induction false} PartsConcat(a: seq<Json>, b: seq<Json>)
    ensures PartsWithText(a + b) == PartsWithText(a) + PartsWithText(b)
  {
    if a == [] {
      assert a + b == b;
    } else {
      assert (a + b)[1..] == a[1..] + b;
      PartsConcat(a[1..], b);
    }
  }

  /** Each text behind its own blank line. */
  function Separated(texts: seq<string>): seq<string> {
    seq(|texts|, i requires 0 <= i < |texts| => "\n\n" + texts[i])
  }

  lemma {:induction false} JoinedIsFlat(texts: seq<string>)
    requires texts != []
    ensures Joined(texts) == texts[0] + Flat(Separated(texts[1..]))
  {
    if |texts| > 1 {
      JoinedIsFlat(texts[1..]);
      assert Separated(texts[1..])[1..] == Separated(texts[1..][1..]);
    }
  }

  /** The blocks that `_anthropic_system_with` appends to a block list. */
  function Appended(separator: string, additions: seq<string>): seq<Json>
    requires additions != []
  {
    [TextBlock(separator + additions[0])]
    + seq(|additions| - 1, i requires 0 <= i < |additions| - 1 => TextBlock("\n\n" + additions[i + 1]))
  }

  lemma AppendedTexts(separator: string, additions: seq<string>)
    requires additions != [] && additions[0] != ""
    ensures PartsWithText(Appended(separator, additions)) == Appended(separator, additions)
    ensures TextsOf(Appended(separator, additions)) == [separator + additions[0]] + Separated(additions[1..])
  {
    BlocksHaveText(Appended(separator, additions));
  }

  lemma StringText(s: string)
    ensures Flat(ContentTexts(Str(s))) == s
  {
    if s != "" {
      assert ContentTexts(Str(s)) == [s];
      assert [s][1..] == [];
    }
  }

  lemma BlockTexts(items: seq<Json>, separator: string, additions: seq<string>)
    requires additions != [] && additions[0] != ""
    ensures ContentTexts(Arr(items + Appended(separator, additions))) ==
            ContentTexts(Arr(items)) + ([separator + additions[0]] + Separated(additions[1..]))
  {
    PartsConcat(items, Appended(separator, additions));
    AppendedTexts(separator, additions);
  }

  /** The block list reads as the string form would: for any prompt, the texts of
      the extended prompt concatenate to the old text and the additions, joined by
      blank lines. */
  lemma PromptFormsAgree(d: Dialect, prompt: Json, additions: seq<string>)
    requires CanExtend(d, prompt) && additions != [] && additions[0] != ""
    ensures Flat(ContentTexts(Extended(d, prompt, additions))) == JoinText(Flat(ContentTexts(prompt)), additions)
  {
    match prompt
    case Null => StringText(Joined(additions));
    case Str(s) =>
      StringText(JoinText(s, additions));
      StringText(s);
    case Arr(items) =>
      BlocksAgree(items, additions);
  }

  lemma BlocksAgree(items: seq<Json>, additions: seq<string>)
    requires additions != [] && additions[0] != ""
    ensures Flat(ContentTexts(Extended(Messages, Arr(items), additions))) == JoinText(Flat(ContentTexts(Arr(items))), additions)
  {
    hide ContentTexts, Joined;
    var texts := ContentTexts(Arr(items));
    var separator := if texts != [] then "\n\n" else "";
    var added, rest := separator + additions[0], Separated(additions[1..]);
    assert Extended(Messages, Arr(items), additions) == Arr(items + Appended(separator, additions)) by {
      assert items + Appended(separator, additions) == items + [TextBlock(separator + additions[0])]
          + seq(|additions| - 1, i requires 0 <= i < |additions| - 1 => TextBlock("\n\n" + additions[i + 1]));
    }
    BlockTexts(items, separator, additions);
    FlatConcat(texts, [added] + rest);
    assert ([added] + rest)[1..] == rest;
    JoinedIsFlat(additions);
    FlatNonEmpty(items);
    if texts != [] {
      var all := [Flat(texts)] + additions;
      JoinedIsFlat(all);
      assert all[1..] == additions && Separated(additions)[1..] == rest && Separated(additions)[0] == added;
    }
  }

  lemma FlatNonEmpty(items: seq<Json>)
    ensures Flat(ContentTexts(Arr(items))) == "" <==> ContentTexts(Arr(items)) == []
  {
    var texts := ContentTexts(Arr(items));
    if texts != [] {
      assert texts[0] != "";
    }
  }
}
