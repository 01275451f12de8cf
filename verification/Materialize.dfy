/**
 Content that is created while a document is copied: canvas and video bitmaps and
 stylesheet text. Bytes are reserved for the largest possible result before the
 browser produces it and settled to what was kept.
 */
module Materialize {
  import opened Text
  import opened Budget

  /** After a call the reservation has gained exactly `bytes` of allocation, and the
      budget has moved exactly as many; nothing else changed. */
  twostate predicate Gained(budget: SnapshotBudget, r: Reservation, bytes: nat)
    reads budget, r
  {
    && r.allocatedPayloadBytes == old(r.allocatedPayloadBytes) + bytes
    && budget.Moved(bytes) && budget.Same(r)
  }

  // --- Canvas and video ---

  /** Largest data URL for the size, if the estimate is known and available. */
  method ReserveCanvasDataUrl(budget: SnapshotBudget, r: Reservation, estimate: Option<nat>)
    returns (reservedBytes: nat, thrown: Option<Thrown>)
    requires budget.Valid() && budget.Holds(r)
    modifies budget, r
    ensures budget.Valid() && budget.Holds(r)
    ensures thrown.None? <==> estimate.Some? && estimate.value <= old(budget.remainingPayloadBytes)
    ensures thrown.None? ==> reservedBytes == estimate.value
    ensures thrown.Some? ==> thrown.value.LimitThrown? && reservedBytes == 0
    ensures Gained(budget, r, reservedBytes)
  {
    var availableBytes := budget.remainingPayloadBytes;
    if estimate.None? || estimate.value > availableBytes {
      var attempted := if estimate.Some? then estimate.value else availableBytes + 1;
      return 0, Some(LimitThrown(PayloadLimit(
                       budget.maximumPayloadBytes - budget.remainingPayloadBytes + attempted, budget.maximumPayloadBytes)));
    }
    thrown := budget.ReservePayloadAllocation(r, estimate.value);
    reservedBytes := estimate.value;
  }

  /** Settle the reservation to the data URL the browser returned. `dataUrl` is absent
      when the browser throws. */
  method EncodeReservedCanvasDataUrl(budget: SnapshotBudget, r: Reservation, reservedBytes: nat, dataUrl: Option<Str>)
    returns (bytes: nat, thrown: Option<Thrown>)
    requires budget.Valid() && budget.Holds(r)
    requires reservedBytes <= r.allocatedPayloadBytes && reservedBytes <= MAX_SAFE_INTEGER
    modifies budget, r
    ensures budget.Valid() && budget.Holds(r) && budget.Same(r)
    ensures thrown.None? <==> dataUrl.Some? && Utf8Length(dataUrl.value) <= reservedBytes
    ensures thrown.Some? ==> unchanged(budget) && unchanged(r) && (thrown.value.LimitThrown? <==> dataUrl.Some?)
    ensures thrown.None? ==>
      && bytes == Utf8Length(dataUrl.value)
      && r.allocatedPayloadBytes == old(r.allocatedPayloadBytes) - reservedBytes + bytes
      && budget.Moved(bytes - reservedBytes)
  {
    bytes := 0;
    if dataUrl.None? {
      return 0, Some(OtherThrown);
    }
    var actual := Utf8LengthWithinLimit(dataUrl.value, reservedBytes);
    if actual.OverLimit? {
      return 0, Some(LimitThrown(PayloadLimit(
                       budget.maximumPayloadBytes - budget.remainingPayloadBytes + reservedBytes + 1, budget.maximumPayloadBytes)));
    }
    bytes := actual.bytes;
    thrown := budget.SettlePayloadAllocation(r, reservedBytes, bytes);
  }

  /** The largest possible data URL is not available, or the actual one is larger still. */
  predicate TooLarge(estimate: Option<nat>, dataUrl: Option<Str>, remaining: nat) {
    estimate.None? || estimate.value > remaining || (dataUrl.Some? && Utf8Length(dataUrl.value) > estimate.value)
  }

  /** Reserve, encode, and give everything back when encoding fails. */
  method CaptureCanvasDataUrl(budget: SnapshotBudget, r: Reservation, estimate: Option<nat>, dataUrl: Option<Str>)
    returns (bytes: nat, thrown: Option<Thrown>)
    requires budget.Valid() && budget.Holds(r)
    modifies budget, r
    ensures budget.Valid() && budget.Holds(r)
    ensures thrown.None? <==>
      estimate.Some? && estimate.value <= old(budget.remainingPayloadBytes)
      && dataUrl.Some? && Utf8Length(dataUrl.value) <= estimate.value
    ensures thrown.None? ==> bytes == Utf8Length(dataUrl.value) && Gained(budget, r, bytes)
    ensures thrown.Some? ==> Gained(budget, r, 0)
    ensures thrown.Some? ==> (thrown.value.LimitThrown? <==> TooLarge(estimate, dataUrl, old(budget.remainingPayloadBytes)))
  {
    var reservedBytes;
    reservedBytes, thrown := ReserveCanvasDataUrl(budget, r, estimate);
    if thrown.Some? {
      return 0, thrown;
    }
    bytes, thrown := EncodeReservedCanvasDataUrl(budget, r, reservedBytes, dataUrl);
    if thrown.Some? {
      var ignored := budget.SettlePayloadAllocation(r, reservedBytes, 0);
    }
  }

  /** What the browser does with a canvas. */
  datatype Canvas = Canvas(context: bool, estimate: Option<nat>, dataUrl: Option<Str>, placingThrows: bool, fallbackThrows: bool)

  predicate CanvasFits(c: Canvas, remaining: nat) {
    && c.context && c.estimate.Some? && c.estimate.value <= remaining
    && c.dataUrl.Some? && Utf8Length(c.dataUrl.value) <= c.estimate.value
  }

  /** The canvas branch: the reservation gains exactly the data URL of the image that
      replaced the canvas, or nothing. */
  method CopyCanvas(budget: SnapshotBudget, r: Reservation, c: Canvas)
    returns (kept: Option<Str>, thrown: Option<Thrown>)
    requires budget.Valid() && budget.Holds(r)
    modifies budget, r
    ensures budget.Valid() && budget.Holds(r)
    ensures Gained(budget, r, if kept.Some? then Utf8Length(kept.value) else 0)
    ensures kept.Some? <==> CanvasFits(c, old(budget.remainingPayloadBytes)) && !c.placingThrows
    ensures kept.Some? ==> kept == c.dataUrl && thrown.None?
    ensures kept.None? ==>
      var limit := c.context && TooLarge(c.estimate, c.dataUrl, old(budget.remainingPayloadBytes));
      && (thrown.Some? <==> limit || c.fallbackThrows)
      && (thrown.Some? ==> (thrown.value.LimitThrown? <==> limit))
  {
    kept, thrown := None, None;
    var allocatedPayloadBytes := 0;
    var caught := Some(OtherThrown);
    if c.context {
      allocatedPayloadBytes, caught := CaptureCanvasDataUrl(budget, r, c.estimate, c.dataUrl);
      if caught.Some? {
        allocatedPayloadBytes := 0;
      } else if c.placingThrows {
        caught := Some(OtherThrown);
      } else {
        return c.dataUrl, None;
      }
    }
    if allocatedPayloadBytes > 0 {
      var ignored := budget.SettlePayloadAllocation(r, allocatedPayloadBytes, 0);
    }
    if caught.value.LimitThrown? {
      return None, caught;
    }
    return None, if c.fallbackThrows then Some(OtherThrown) else None;
  }

  /** What the browser does with a video. */
  datatype Video = Video(drawable: bool, estimate: Option<nat>, drawingThrows: bool, dataUrl: Option<Str>,
                         placingThrows: bool, fallbackThrows: bool)

  predicate VideoFits(v: Video, remaining: nat) {
    && v.drawable && v.estimate.Some? && v.estimate.value <= remaining && !v.drawingThrows
    && v.dataUrl.Some? && Utf8Length(v.dataUrl.value) <= v.estimate.value
  }

  predicate VideoTooLarge(v: Video, remaining: nat) {
    TooLarge(v.estimate, if v.drawingThrows then None else v.dataUrl, remaining)
  }

  /** What the try block holds on to when it ends: the bytes still reserved and those
      already settled for the frame's data URL. */
  method CaptureVideoFrame(budget: SnapshotBudget, r: Reservation, v: Video)
    returns (reservedPayloadBytes: nat, allocatedPayloadBytes: nat, caught: Option<Thrown>)
    requires budget.Valid() && budget.Holds(r)
    modifies budget, r
    ensures budget.Valid() && budget.Holds(r)
    ensures Gained(budget, r, reservedPayloadBytes + allocatedPayloadBytes)
    ensures caught.None? <==> VideoFits(v.(drawable := true), old(budget.remainingPayloadBytes)) && !v.placingThrows
    ensures caught.None? ==> reservedPayloadBytes == 0 && allocatedPayloadBytes == Utf8Length(v.dataUrl.value)
    ensures caught.Some? ==> (caught.value.LimitThrown? <==> VideoTooLarge(v, old(budget.remainingPayloadBytes)))
    ensures reservedPayloadBytes <= MAX_SAFE_INTEGER && allocatedPayloadBytes <= MAX_SAFE_INTEGER
  {
    reservedPayloadBytes, allocatedPayloadBytes := 0, 0;
    reservedPayloadBytes, caught := ReserveCanvasDataUrl(budget, r, v.estimate);
    if caught.Some? {
      return;
    }
    if v.drawingThrows {
      caught := Some(OtherThrown);
      return;
    }
    var bytes;
    bytes, caught := EncodeReservedCanvasDataUrl(budget, r, reservedPayloadBytes, v.dataUrl);
    if caught.None? {
      reservedPayloadBytes, allocatedPayloadBytes := 0, bytes;
      if v.placingThrows {
        caught := Some(OtherThrown);
      }
    }
  }

  /** The current frame of a video: two counters tell what an exception has to give back. */
  method MaterializeVideo(budget: SnapshotBudget, r: Reservation, v: Video)
    returns (kept: Option<Str>, thrown: Option<Thrown>)
    requires budget.Valid() && budget.Holds(r)
    modifies budget, r
    ensures budget.Valid() && budget.Holds(r)
    ensures Gained(budget, r, if kept.Some? then Utf8Length(kept.value) else 0)
    ensures kept.Some? <==> VideoFits(v, old(budget.remainingPayloadBytes)) && !v.placingThrows
    ensures kept.Some? ==> kept == v.dataUrl && thrown.None?
    ensures kept.None? ==>
      var limit := v.drawable && VideoTooLarge(v, old(budget.remainingPayloadBytes));
      && (thrown.Some? <==> limit || v.fallbackThrows)
      && (thrown.Some? ==> (thrown.value.LimitThrown? <==> limit))
  {
    kept, thrown := None, None;
    if !v.drawable {
      return None, if v.fallbackThrows then Some(OtherThrown) else None;
    }
    var reservedPayloadBytes, allocatedPayloadBytes, caught := CaptureVideoFrame(budget, r, v);
    if caught.None? {
      return v.dataUrl, None;
    }
    if reservedPayloadBytes > 0 {
      var ignored := budget.SettlePayloadAllocation(r, reservedPayloadBytes, 0);
    }
    if allocatedPayloadBytes > 0 {
      var ignored := budget.SettlePayloadAllocation(r, allocatedPayloadBytes, 0);
    }
    if caught.value.LimitThrown? {
      return None, caught;
    }
    return None, if v.fallbackThrows then Some(OtherThrown) else None;
  }

  // --- Stylesheets ---

  /** A rule: whether it is kept, and its text; either may throw instead. */
  datatype Rule = Rule(kept: Option<bool>, text: Option<Str>)

  datatype Copied = Unreadable | OverLimit(attempted: nat) | Rules(bytes: nat, rules: seq<Str>)

  function JoinLines(texts: seq<Str>): Str {
    if texts == [] then []
    else if |texts| == 1 then texts[0]
    else JoinLines(texts[..|texts| - 1]) + [10] + texts[|texts| - 1]
  }

  function Separator(texts: seq<Str>): nat {
    if texts == [] then 0 else 1
  }

  lemma JoinLinesWidth(texts: seq<Str>, text: Str)
    ensures Utf8Length(JoinLines(texts + [text])) == Utf8Length(JoinLines(texts)) + Separator(texts) + Utf8Length(text)
  {
    var all := texts + [text];
    assert all[..|all| - 1] == texts;
    if texts != [] {
      EncodeConcat(JoinLines(texts), [10]);
      EncodeConcat(JoinLines(texts) + [10], text);
      AsciiLength([10]);
    }
  }

  /** The rule can be read. */
  predicate Reads(rule: Rule) {
    rule.kept.Some? && (rule.kept.value ==> rule.text.Some?)
  }

  predicate AllRead(rules: seq<Rule>) {
    forall i :: 0 <= i < |rules| ==> Reads(rules[i])
  }

  /** Texts of the rules that are kept. */
  function KeptTexts(rules: seq<Rule>): seq<Str>
    requires AllRead(rules)
  {
    if rules == [] then []
    else
      var last := rules[|rules| - 1];
      KeptTexts(rules[..|rules| - 1]) + if last.kept.value then [last.text.value] else []
  }

  /** A text is copied exactly when a rule that is kept has it, and as often. */
  lemma {:induction false} KeptTextsAreKept(rules: seq<Rule>, text: Str)
    requires AllRead(rules)
    ensures text in KeptTexts(rules) <==> exists i :: 0 <= i < |rules| && rules[i] == Rule(Some(true), Some(text))
    ensures |KeptTexts(rules)| == KeptCount(rules)
  {
    if rules != [] {
      var front, last := rules[..|rules| - 1], rules[|rules| - 1];
      KeptTextsAreKept(front, text);
      assert last == Rule(Some(true), Some(text)) <==> last.kept.value && last.text.value == text;
      if i :| 0 <= i < |rules| && rules[i] == Rule(Some(true), Some(text)) && i < |front| {
        assert front[i] == Rule(Some(true), Some(text));
      }
    }
  }

  function KeptCount(rules: seq<Rule>): nat {
    if rules == [] then 0 else KeptCount(rules[..|rules| - 1]) + if rules[|rules| - 1].kept == Some(true) then 1 else 0
  }

  function Width(rules: seq<Rule>): nat
    requires AllRead(rules)
  {
    Utf8Length(JoinLines(KeptTexts(rules)))
  }

  /** The text of every rule that has one, each with a separator, kept or not. */
  function Extent(rules: seq<Rule>): nat {
    if rules == [] then 0
    else
      var last := rules[|rules| - 1];
      Extent(rules[..|rules| - 1]) + 1 + if last.text.Some? then Utf8Length(last.text.value) else 0
  }

  lemma ExtentStep(rules: seq<Rule>, i: nat)
    requires i < |rules|
    ensures Extent(rules[..i + 1]) == Extent(rules[..i]) + 1 + if rules[i].text.Some? then Utf8Length(rules[i].text.value) else 0
  {
    assert rules[..i + 1][..i] == rules[..i];
  }

  lemma {:induction false} ExtentGrows(rules: seq<Rule>, i: nat)
    requires i <= |rules|
    ensures Extent(rules[..i]) <= Extent(rules)
    decreases |rules| - i
  {
    if i == |rules| {
      assert rules[..i] == rules;
    } else {
      ExtentStep(rules, i);
      ExtentGrows(rules, i + 1);
    }
  }

  /** The loop gets past rule `i`: there is a byte left when it looks at the rule, and a
      kept rule has at least one byte to itself and fits. */
  ghost predicate Passes(rules: seq<Rule>, i: nat, maximumBytes: nat)
    requires i < |rules| && AllRead(rules)
  {
    && Width(rules[..i]) < maximumBytes
    && (rules[i].kept.value ==>
          && Width(rules[..i]) + Separator(KeptTexts(rules[..i])) < maximumBytes
          && Width(rules[..i]) + Separator(KeptTexts(rules[..i])) + Utf8Length(rules[i].text.value) <= maximumBytes)
  }

  lemma WidthStep(rules: seq<Rule>, i: nat)
    requires i < |rules| && AllRead(rules)
    ensures rules[i].kept.value ==>
      && KeptTexts(rules[..i + 1]) == KeptTexts(rules[..i]) + [rules[i].text.value]
      && Width(rules[..i + 1]) == Width(rules[..i]) + Separator(KeptTexts(rules[..i])) + Utf8Length(rules[i].text.value)
    ensures !rules[i].kept.value ==> KeptTexts(rules[..i + 1]) == KeptTexts(rules[..i])
  {
    hide JoinLines, Encode;
    assert rules[..i + 1][..i] == rules[..i];
    if rules[i].kept.value {
      JoinLinesWidth(KeptTexts(rules[..i]), rules[i].text.value);
    } else {
      assert KeptTexts(rules[..i]) + [] == KeptTexts(rules[..i]);
    }
  }

  /** The copied rules are the kept ones and the count is the width of their joined text.
      `sheet` is absent when its rule list cannot be read at all. */
  method CopyCssRules(sheet: Option<seq<Rule>>, maximumBytes: nat) returns (r: Copied)
    requires maximumBytes <= MAX_SAFE_INTEGER
    ensures sheet.None? ==> r == Unreadable
    ensures sheet.Some? ==>
      var rules := sheet.value;
      && (r.Rules? ==> AllRead(rules) && r.rules == KeptTexts(rules) && r.bytes == Width(rules) <= maximumBytes)
      && (AllRead(rules) ==> (r.Rules? <==> forall i :: 0 <= i < |rules| ==> Passes(rules, i, maximumBytes)))
      && (AllRead(rules) ==> !r.Unreadable?)
      && (r.OverLimit? ==> Extent(rules) >= maximumBytes)
      && (r.Rules? ==> r.bytes <= Extent(rules))
    ensures r.OverLimit? ==> r.attempted == maximumBytes + 1
  {
    if sheet.None? {
      return Unreadable;
    }
    r := CopyRules(sheet.value, maximumBytes);
  }

  /** The loop over the rules. */
  method CopyRules(rules: seq<Rule>, maximumBytes: nat) returns (r: Copied)
    requires maximumBytes <= MAX_SAFE_INTEGER
    ensures r.Rules? ==> AllRead(rules) && r.rules == KeptTexts(rules) && r.bytes == Width(rules) <= maximumBytes
    ensures AllRead(rules) ==> (r.Rules? <==> forall i :: 0 <= i < |rules| ==> Passes(rules, i, maximumBytes))
    ensures AllRead(rules) ==> !r.Unreadable?
    ensures r.OverLimit? ==> r.attempted == maximumBytes + 1
    ensures r.OverLimit? ==> Extent(rules) >= maximumBytes
    ensures r.Rules? ==> r.bytes <= Extent(rules)
  {
    hide Encode, JoinLines;
    var copied: seq<Str>, bytes := [], 0;
    NoRules();
    for index := 0 to |rules|
      invariant AllRead(rules[..index]) && copied == KeptTexts(rules[..index]) && bytes == Width(rules[..index]) <= maximumBytes
      invariant AllRead(rules) ==> forall i :: 0 <= i < index ==> Passes(rules, i, maximumBytes)
      invariant bytes <= Extent(rules[..index])
    {
      var rule := rules[index];
      ExtentStep(rules, index);
      ExtentGrows(rules, index + 1);
      if bytes >= maximumBytes {
        Refused(rules, index, maximumBytes);
        return Copied.OverLimit(maximumBytes + 1);
      }
      if rule.kept.None? {
        assert !Reads(rules[index]);
        return Unreadable;
      }
      if rule.kept.value {
        var separatorBytes := if |copied| > 0 then 1 else 0;
        var remainingBytes := maximumBytes - bytes - separatorBytes;
        if remainingBytes < 1 {
          Refused(rules, index, maximumBytes);
          return Copied.OverLimit(maximumBytes + 1);
        }
        if rule.text.None? {
          assert !Reads(rules[index]);
          return Unreadable;
        }
        var width := Utf8LengthWithinLimit(rule.text.value, remainingBytes);
        if width.OverLimit? {
          Refused(rules, index, maximumBytes);
          return Copied.OverLimit(maximumBytes + 1);
        }
        bytes := bytes + separatorBytes + width.bytes;
        copied := copied + [rule.text.value];
      }
      Extended(rules, index);
    }
    assert rules[..|rules|] == rules;
    return Rules(bytes, copied);
  }

  lemma NoRules()
    ensures KeptTexts([]) == [] && Width([]) == 0
  {
  }

  lemma Refused(rules: seq<Rule>, i: nat, maximumBytes: nat)
    requires i < |rules|
    ensures AllRead(rules) && !Passes(rules, i, maximumBytes) ==>
      !(forall j :: 0 <= j < |rules| ==> Passes(rules, j, maximumBytes))
  {
  }

  lemma Extended(rules: seq<Rule>, i: nat)
    requires i < |rules| && AllRead(rules[..i]) && Reads(rules[i])
    ensures AllRead(rules[..i + 1])
    ensures rules[i].kept.value ==>
      && KeptTexts(rules[..i + 1]) == KeptTexts(rules[..i]) + [rules[i].text.value]
      && Width(rules[..i + 1]) == Width(rules[..i]) + Separator(KeptTexts(rules[..i])) + Utf8Length(rules[i].text.value)
    ensures !rules[i].kept.value ==> KeptTexts(rules[..i + 1]) == KeptTexts(rules[..i])
  {
    hide Width, KeptTexts, Encode;
    var prefix := rules[..i + 1];
    assert prefix[..i] == rules[..i] && prefix[i] == rules[i];
    assert prefix[..i + 1] == prefix;
    forall j | 0 <= j < |prefix|
      ensures Reads(prefix[j])
    {
      if j < i {
        assert prefix[j] == rules[..i][j];
      }
    }
    WidthStep(prefix, i);
  }

  /** Widths only grow from rule to rule. */
  lemma {:induction false} WidthGrows(rules: seq<Rule>, i: nat, j: nat)
    requires i <= j <= |rules| && AllRead(rules)
    ensures Width(rules[..i]) <= Width(rules[..j])
    decreases j
  {
    hide Width, KeptTexts;
    if i < j {
      WidthGrows(rules, i, j - 1);
      WidthStep(rules, j - 1);
      SameWidth(rules, j - 1);
    }
  }

  lemma SameWidth(rules: seq<Rule>, i: nat)
    requires i < |rules| && AllRead(rules)
    ensures KeptTexts(rules[..i + 1]) == KeptTexts(rules[..i]) ==> Width(rules[..i + 1]) == Width(rules[..i])
  {
  }

  lemma PassesEarlier(rules: seq<Rule>, i: nat, maximumBytes: nat)
    requires i + 1 < |rules| && AllRead(rules) && Width(rules[..|rules| - 1]) < maximumBytes
    ensures Passes(rules, i, maximumBytes)
  {
    hide Width, KeptTexts, AllRead;
    WidthStep(rules, i);
    SameWidth(rules, i);
    WidthGrows(rules, i, |rules| - 1);
    WidthGrows(rules, i + 1, |rules| - 1);
  }

  /** The loop gets through a readable stylesheet exactly when it gets past the last rule. */
  lemma LastRuleDecides(rules: seq<Rule>, maximumBytes: nat)
    requires AllRead(rules)
    ensures (forall i :: 0 <= i < |rules| ==> Passes(rules, i, maximumBytes))
       <==> rules == [] || Passes(rules, |rules| - 1, maximumBytes)
  {
    hide Width, KeptTexts;
    if rules != [] && Width(rules[..|rules| - 1]) < maximumBytes {
      forall i | 0 <= i < |rules| - 1
        ensures Passes(rules, i, maximumBytes)
      {
        PassesEarlier(rules, i, maximumBytes);
      }
    }
  }

  /** A stylesheet whose text fits exactly is refused when a rule that would be dropped
      follows, although dropping it leaves the text as it was. */
  lemma ExactFitWithTrailingRuleRefused(rules: seq<Rule>, dropped: Rule, maximumBytes: nat)
    requires AllRead(rules) && dropped.kept == Some(false)
    requires Width(rules) == maximumBytes
    ensures AllRead(rules + [dropped]) && KeptTexts(rules + [dropped]) == KeptTexts(rules)
    ensures Width(rules + [dropped]) <= maximumBytes
    ensures !Passes(rules + [dropped], |rules|, maximumBytes)
  {
    var all := rules + [dropped];
    assert all[..|rules|] == rules && all[..|all|] == all;
    WidthStep(all, |rules|);
  }

  /** Every unclaimed byte is held while the browser serializes the rules, then all but
      the text's own bytes are given back. Without allocation the text may use whatever
      the whole document may, and all bytes are given back. */
  method MaterializeCssRules(budget: SnapshotBudget, r: Reservation, sheet: Option<seq<Rule>>, allocatePayload: bool)
    returns (text: Option<Str>, thrown: Option<Thrown>)
    requires budget.Valid() && budget.Holds(r)
    requires budget.MaximumDocumentBytes(r) <= MAX_SAFE_INTEGER
    modifies budget, r
    ensures budget.Valid() && budget.Holds(r)
    ensures Gained(budget, r, if text.Some? && allocatePayload then Utf8Length(text.value) else 0)
    ensures sheet.None? ==> text.None? && thrown.None?
    ensures text.Some? ==> thrown.None? && sheet.Some? && AllRead(sheet.value) && text.value == JoinLines(KeptTexts(sheet.value))
    ensures thrown.Some? ==> thrown.value.LimitThrown? && sheet.Some?
    ensures sheet.Some? && Extent(sheet.value) < old(budget.remainingPayloadBytes) ==> thrown.None?
    ensures text.Some? ==> Utf8Length(text.value) <= Extent(sheet.value)
    ensures
      var maximumBytes := if allocatePayload then old(budget.remainingPayloadBytes) else old(budget.MaximumDocumentBytes(r));
      && (text.Some? ==> Utf8Length(text.value) <= maximumBytes)
      && (sheet.Some? && AllRead(sheet.value) ==>
            && (text.Some? <==> sheet.value == [] || Passes(sheet.value, |sheet.value| - 1, maximumBytes))
            && (text.None? ==> thrown.Some?))
  {
    hide JoinLines, KeptTexts, Passes, AllRead, Encode, budget.Valid;
    var unclaimedPayloadBytes := budget.remainingPayloadBytes;
    var maximumBytes := if allocatePayload then unclaimedPayloadBytes else budget.MaximumDocumentBytes(r);
    SafeRemainder(budget);
    var reserved := budget.ReservePayloadAllocation(r, unclaimedPayloadBytes);
    var copied := CopyCssRules(sheet, maximumBytes);
    if sheet.Some? && AllRead(sheet.value) {
      LastRuleDecides(sheet.value, maximumBytes);
    }
    var kept := if copied.Rules? && allocatePayload then copied.bytes else 0;
    var settled := budget.SettlePayloadAllocation(r, unclaimedPayloadBytes, kept);
    match copied
    case Unreadable => return None, None;
    case OverLimit(attempted) =>
      return None, Some(LimitThrown(PayloadLimit(
                          if allocatePayload then budget.maximumPayloadBytes - budget.remainingPayloadBytes + attempted
                          else attempted, budget.maximumPayloadBytes)));
    case Rules(_, rules) => return Some(JoinLines(rules)), None;
  }

  lemma SafeRemainder(budget: SnapshotBudget)
    requires budget.Valid()
    ensures budget.remainingPayloadBytes <= MAX_SAFE_INTEGER
  {
  }
}
