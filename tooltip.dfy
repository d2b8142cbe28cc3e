/** The tooltip extractor behind the item and rune lists. For each tooltip holder of the
    tier list it makes up to five hover attempts, fills one record field by field from the
    tooltip that appears, classifies the holder as extracted or failed, and rewrites the
    partial file every ten holders and after the last one.

    The browser is an oracle: for each attempt, what the content check and the container
    lookup see, and how many of the reads on the tooltip succeed before one throws; for
    each holder, which statement outside the attempts throws, if any. The record a holder
    gets is allocated once, before its attempts, so what a failed attempt wrote stays. */
module TooltipScraper {
  import opened Wrappers
  import Text
  import JsNumber
  import JsObject
  import Helpers

  /** Attempts per holder. */
  const TooltipRetries: nat := 5
  /** The partial file is rewritten after every this many holders. */
  const BatchSize: nat := 10

  /** The `type` argument: `'item'` or `'rune'`. */
  datatype Kind = Item | Rune

  /** An item's `cost`: the number its digits spell, or the text itself when it has none. */
  datatype Cost = Amount(n: nat) | Label(text: string)

  /** The record of one holder; `None` is a property that was never assigned. `sort` and
      `dataId` hold the attribute values (`None` for `null`); every record that is kept has
      them assigned. */
  datatype Data = Data(
    id: Option<JsObject.Value>, code: Option<JsObject.Value>,
    sort: Option<string>, dataId: Option<string>,
    image: Option<Option<string>>, name: Option<string>, cost: Option<Cost>,
    stats: Option<seq<string>>, uniques: Option<string>, description: Option<string>,
    runeType: Option<string>)

  /** `#tooltip` in one snapshot of the page: whether its style hides it, and what its
      selectors find, `None` meaning no such element. */
  datatype Tip = Tip(
    hidden: bool,
    image: Option<Option<string>>,   // `.tt__image img` and its `src` attribute
    title: Option<string>,           // `.tt__info__title span` and its text
    cost: Option<string>,            // `.tt__info__cost span` and its text
    stats: seq<string>,              // the texts of the `.tt__info__stats span` elements
    uniques: Option<string>,         // `.tt__info__uniques span` and its inner markup
    tt: Option<Option<string>>)      // `.tt` and its `class` attribute

  /** What the page does in one attempt. `Unshown`: scrolling, hovering or the wait for a
      visible tooltip throws. `Shown`: the content check sees `waited`, the container
      lookup then returns `found`, and `budget` reads on it succeed before the next one
      throws (`None`: none throws). */
  datatype Attempt = Unshown | Shown(waited: Option<Tip>, found: Option<Tip>, budget: Option<nat>)

  /** The statement outside the attempts' own `try` that throws for a holder, if any. */
  datatype Fault =
    | NoFault
    | ClassFault               // reading the `class` attribute
    | SortFault                // reading `data-sort`
    | DataIdFault              // reading `data-id`
    | ResetFault(after: nat)   // moving the pointer away after failed attempt `after`
    | SaveFault                // writing the partial file
    | MoveFault                // moving the pointer away after the holder

  /** One tooltip holder of the tier list, with what the page does for it. */
  datatype Holder = Holder(className: Option<string>, sort: Option<string>, dataId: Option<string>,
                           attempts: seq<Attempt>, fault: Fault)

  /** Attempts past the end of the list fail to show the tooltip. */
  function AttemptAt(h: Holder, k: nat): Attempt {
    if k < |h.attempts| then h.attempts[k] else Unshown
  }

  // ---------------------------------------------------------------------------------
  // Field rules

  /** `parseInt(text.replace(/[^\d]/g, ''), 10)`, or the text when that is NaN. */
  function CostOf(text: string): (c: Cost)
    ensures c.Label? <==> forall i :: 0 <= i < |text| ==> !JsNumber.IsDigit(text[i])
    ensures c.Label? ==> c.text == text
    ensures c.Amount? ==> c.n == JsNumber.DecimalValue(JsNumber.KeepDigits(text))
  {
    var ds := JsNumber.KeepDigits(text);
    if ds == [] then Label(text) else Amount(JsNumber.DecimalValue(ds))
  }

  lemma {:induction false} KeepDigitsAppend(a: string, b: string)
    ensures JsNumber.KeepDigits(a + b) == JsNumber.KeepDigits(a) + JsNumber.KeepDigits(b)
  {
    if a != [] {
      assert (a + b)[1..] == a[1..] + b;
      KeepDigitsAppend(a[1..], b);
    } else {
      assert a + b == b;
    }
  }

  lemma {:induction false} KeepDigitsOfDigits(ds: string)
    requires JsNumber.AllDigits(ds)
    ensures JsNumber.KeepDigits(ds) == ds
  {
    if ds != [] {
      KeepDigitsOfDigits(ds[1..]);
    }
  }

  /** A cost written with a thousands separator reads as the number of its digits, and a
      plain number reads as itself. */
  lemma CostOfSeparated(a: string, b: string)
    requires a != [] && JsNumber.AllDigits(a) && JsNumber.AllDigits(b)
    ensures CostOf(a + "," + b) == Amount(JsNumber.DecimalValue(a + b))
    ensures CostOf(a) == Amount(JsNumber.DecimalValue(a))
  {
    KeepDigitsOfDigits(a);
    KeepDigitsOfDigits(b);
    assert JsNumber.KeepDigits(",") == [] by {
      assert !JsNumber.IsDigit(","[0]);
    }
    KeepDigitsAppend(a, ",");
    assert JsNumber.KeepDigits(a + ",") == a;
    KeepDigitsAppend(a + ",", b);
    assert JsNumber.KeepDigits(a + "," + b) == a + b;
  }

  /** The `stats` list: the trimmed span texts that are not empty, in document order. */
  function CleanStats(spans: seq<string>): (r: seq<string>)
    ensures |r| <= |spans|
    decreases |spans|
  {
    if spans == [] then [] else Kept(spans[0]) + CleanStats(spans[1..])
  }

  /** What one span contributes: its trimmed text, unless that is empty. */
  function Kept(span: string): (r: seq<string>)
    ensures |r| <= 1
  {
    var t := Text.Trim(span);
    if t != [] then [t] else []
  }

  /** Every entry of the stats list is non-empty and already trimmed. */
  lemma {:induction false} CleanStatsClean(spans: seq<string>)
    ensures forall k :: 0 <= k < |CleanStats(spans)| ==>
              CleanStats(spans)[k] != [] && Text.Trim(CleanStats(spans)[k]) == CleanStats(spans)[k]
    decreases |spans|
  {
    if spans != [] {
      CleanStatsClean(spans[1..]);
      Text.TrimIdempotent(spans[0]);
    }
  }

  /** A span is dropped exactly when it is all white space: no blank span means one entry
      per span, and only blank spans mean an empty list. */
  lemma {:induction false} CleanStatsCount(spans: seq<string>)
    ensures (forall k :: 0 <= k < |spans| ==> !Text.AllSpace(spans[k])) ==> |CleanStats(spans)| == |spans|
    ensures (forall k :: 0 <= k < |spans| ==> Text.AllSpace(spans[k])) ==> CleanStats(spans) == []
    decreases |spans|
  {
    if spans != [] {
      CleanStatsCount(spans[1..]);
      Text.TrimEmpty(spans[0]);
      assert forall k :: 1 <= k < |spans| ==> spans[k] == spans[1..][k - 1];
    }
  }

  /** The rune `type`: `'rune'` when the `.tt` class mentions `tt--rune`, else `'unknown'`. */
  function RuneType(cls: Option<string>): (t: string)
    ensures t == "rune" <==> cls.Some? && Text.Contains(cls.value, "tt--rune")
    ensures t == "rune" || t == "unknown"
  {
    if cls.Some? && Text.Contains(cls.value, "tt--rune") then "rune" else "unknown"
  }

  /** The content check an attempt waits for: a visible tooltip whose title has text that
      is not all white space and, for items, at least one stats or uniques span. */
  predicate Ready(kind: Kind, t: Option<Tip>) {
    && t.Some? && !t.value.hidden
    && t.value.title.Some? && Text.Trim(t.value.title.value) != []
    && (kind == Item ==> t.value.stats != [] || t.value.uniques.Some?)
  }

  /** Whatever satisfies the item check satisfies the rune check, but not the reverse. */
  lemma ItemReadinessStricter(t: Option<Tip>)
    ensures Ready(Item, t) ==> Ready(Rune, t)
    ensures var bare := Some(Tip(false, None, Some("Name"), None, [], None, None));
            Ready(Rune, bare) && !Ready(Item, bare)
  {
    var bare := Some(Tip(false, None, Some("Name"), None, [], None, None));
    assert bare.value.title.value[0] == 'N';
    assert Text.Trim(bare.value.title.value) != [] by {
      Text.TrimEmpty(bare.value.title.value);
    }
  }

  // ---------------------------------------------------------------------------------
  // One attempt's reads

  lemma {:induction false} CleanStatsAppend(a: seq<string>, b: seq<string>)
    ensures CleanStats(a + b) == CleanStats(a) + CleanStats(b)
    decreases |a|
  {
    if a != [] {
      assert (a + b)[1..] == a[1..] + b;
      CleanStatsAppend(a[1..], b);
    } else {
      assert a + b == b;
    }
  }

  /** Reading one more stats span pushes its trimmed text when that is not empty. */
  lemma CleanStatsSnoc(spans: seq<string>, j: nat)
    requires j < |spans|
    ensures CleanStats(spans[..j + 1]) == CleanStats(spans[..j]) + Kept(spans[j])
  {
    assert spans[..j + 1] == spans[..j] + [spans[j]];
    CleanStatsAppend(spans[..j], [spans[j]]);
    assert [spans[j]][1..] == [];
  }

  function Count(b: bool): nat {
    if b then 1 else 0
  }

  /** Where the reads of an attempt fall, counting from 0: the image lookup is read 0 and
      its `src` read 1 (when there is an image), then for each later field a lookup at the
      offset given here and, when the element exists, the read of its content right after.
      An item's stats lookup is followed by one read per span. */
  datatype Layout = Layout(name: nat, cost: nat, stats: nat, uniques: nat, tt: nat, total: nat)

  function LayoutOf(kind: Kind, t: Tip): (l: Layout)
    ensures 1 <= l.name < l.uniques < l.total
    ensures kind == Item ==> l.name < l.cost < l.stats < l.uniques && l.total == l.tt
    ensures kind == Rune ==> l.uniques < l.tt < l.total
  {
    var name := 1 + Count(t.image.Some?);
    var cost := name + 1 + Count(t.title.Some?);
    var stats := cost + 1 + Count(t.cost.Some?);
    var uniques := if kind == Item then stats + 1 + |t.stats| else cost;
    var tt := uniques + 1 + Count(t.uniques.Some?);
    Layout(name, cost, stats, uniques, tt, if kind == Item then tt else tt + 1 + Count(t.tt.Some?))
  }

  /** How many of `n` reads happen when only `budget` of them can succeed. */
  function Reached(n: nat, budget: Option<nat>): nat {
    if budget.Some? && budget.value < n then budget.value else n
  }

  /** The record after the first `m` reads of an attempt on `t`: every field whose read
      came before read `m` holds what that read wrote, every other field is as it was.
      The writes are: the image `src`, the trimmed title as `name`; for items the cost,
      the stats list (reset by the lookup, then the non-empty trimmed text of each span
      read) and the trimmed uniques markup; for runes that markup as `description` and
      the type. */
  function Partial(kind: Kind, t: Tip, m: nat, d: Data): Data {
    var l := LayoutOf(kind, t);
    var item := kind == Item;
    d.(image := if t.image.Some? && m > 1 then Some(t.image.value) else d.image,
       name := if t.title.Some? && m > l.name + 1 then Some(Text.Trim(t.title.value)) else d.name,
       cost := if item && t.cost.Some? && m > l.cost + 1 then Some(CostOf(Text.Trim(t.cost.value))) else d.cost,
       stats := if item && m > l.stats then Some(CleanStats(t.stats[..Min(m - l.stats - 1, |t.stats|)])) else d.stats,
       uniques := if item && t.uniques.Some? && m > l.uniques + 1 then Some(Text.Trim(t.uniques.value)) else d.uniques,
       description := if !item && t.uniques.Some? && m > l.uniques + 1 then Some(Text.Trim(t.uniques.value)) else d.description,
       runeType := if !item && t.tt.Some? && m > l.tt + 1 then Some(RuneType(t.tt.value)) else d.runeType)
  }

  function Min(a: int, b: int): int {
    if a < b then a else b
  }

  /** A complete attempt leaves every field the tooltip provides as the field rules say;
      fields it does not provide keep the value they had. */
  lemma CompleteFills(kind: Kind, t: Tip, d: Data)
    ensures var r := Partial(kind, t, LayoutOf(kind, t).total, d);
      && r.id == d.id && r.code == d.code && r.sort == d.sort && r.dataId == d.dataId
      && r.image == (if t.image.Some? then Some(t.image.value) else d.image)
      && r.name == (if t.title.Some? then Some(Text.Trim(t.title.value)) else d.name)
      && r.cost == (if kind == Item && t.cost.Some? then Some(CostOf(Text.Trim(t.cost.value))) else d.cost)
      && r.stats == (if kind == Item then Some(CleanStats(t.stats)) else d.stats)
      && r.uniques == (if kind == Item && t.uniques.Some? then Some(Text.Trim(t.uniques.value)) else d.uniques)
      && r.description == (if kind == Rune && t.uniques.Some? then Some(Text.Trim(t.uniques.value)) else d.description)
      && r.runeType == (if kind == Rune && t.tt.Some? then Some(RuneType(t.tt.value)) else d.runeType)
  {
    assert t.stats[..|t.stats|] == t.stats;
  }

  /** The read of span `j`: its trimmed text is pushed when it is not empty. */
  method ReadSpan(spans: seq<string>, j: nat, list: seq<string>) returns (list': seq<string>)
    requires j < |spans| && list == CleanStats(spans[..j])
    ensures list' == CleanStats(spans[..j + 1])
  {
    var txt := Text.Trim(spans[j]);
    CleanStatsSnoc(spans, j);
    list' := list;
    if txt != [] {
      list' := list' + [txt];
    }
  }

  /** The stats spans, read one by one from read `n0` on: each text that trims to
      something is pushed onto the list, until all are read or a read throws. */
  method ReadStats(spans: seq<string>, budget: Option<nat>, n0: nat, d0: Data) returns (d: Data, n: nat, complete: bool)
    requires budget.Some? ==> budget.value >= n0
    requires d0.stats == Some([])
    ensures n == Reached(n0 + |spans|, budget)
    ensures complete <==> budget.None? || n0 + |spans| <= budget.value
    ensures d == d0.(stats := Some(CleanStats(spans[..n - n0])))
  {
    var list: seq<string> := [];
    n := n0;
    var j := 0;
    while j < |spans| && budget != Some(n)
      invariant 0 <= j <= |spans| && n == n0 + j
      invariant budget.Some? ==> budget.value >= n
      invariant list == CleanStats(spans[..j])
    {
      list := ReadSpan(spans, j, list);
      n, j := n + 1, j + 1;
    }
    d, complete := d0.(stats := Some(list)), j == |spans|;
  }

  /** The reads so far are the first `n`, the budget has not run out before them, and the
      record holds what they wrote. */
  predicate Going(kind: Kind, tip: Tip, budget: Option<nat>, d0: Data, n: nat, d: Data) {
    (budget.Some? ==> budget.value >= n) && d == Partial(kind, tip, n, d0)
  }

  /** Read `n` has thrown: the budget was exactly `n`, short of the whole attempt, and the
      record holds what the reads before it wrote. */
  predicate Stopped(kind: Kind, tip: Tip, budget: Option<nat>, d0: Data, n: nat, d: Data) {
    budget == Some(n) && n < LayoutOf(kind, tip).total && d == Partial(kind, tip, n, d0)
  }

  /** The image lookup and its `src`. */
  method ReadImage(kind: Kind, tip: Tip, budget: Option<nat>, d0: Data) returns (d: Data, n: nat, ok: bool)
    ensures ok ==> n == LayoutOf(kind, tip).name && Going(kind, tip, budget, d0, n, d)
    ensures !ok ==> Stopped(kind, tip, budget, d0, n, d)
  {
    d, n := d0, 0;
    if budget == Some(n) { return d, n, false; }
    n := n + 1;
    if tip.image.Some? {
      if budget == Some(n) { return d, n, false; }
      d := d.(image := Some(tip.image.value));
      n := n + 1;
    }
    return d, n, true;
  }

  /** The title lookup and its trimmed text as `name`. */
  method ReadTitle(kind: Kind, tip: Tip, budget: Option<nat>, d0: Data, n0: nat, d1: Data) returns (d: Data, n: nat, ok: bool)
    requires n0 == LayoutOf(kind, tip).name && Going(kind, tip, budget, d0, n0, d1)
    ensures ok ==> n == LayoutOf(kind, tip).cost && Going(kind, tip, budget, d0, n, d)
    ensures !ok ==> Stopped(kind, tip, budget, d0, n, d)
  {
    d, n := d1, n0;
    if budget == Some(n) { return d, n, false; }
    n := n + 1;
    if tip.title.Some? {
      if budget == Some(n) { return d, n, false; }
      d := d.(name := Some(Text.Trim(tip.title.value)));
      n := n + 1;
    }
    return d, n, true;
  }

  /** An item's cost lookup and the number its digits spell, or its text. */
  method ReadCost(tip: Tip, budget: Option<nat>, d0: Data, n0: nat, d1: Data) returns (d: Data, n: nat, ok: bool)
    requires n0 == LayoutOf(Item, tip).cost && Going(Item, tip, budget, d0, n0, d1)
    ensures ok ==> n == LayoutOf(Item, tip).stats && Going(Item, tip, budget, d0, n, d)
    ensures !ok ==> Stopped(Item, tip, budget, d0, n, d)
  {
    d, n := d1, n0;
    if budget == Some(n) { return d, n, false; }
    n := n + 1;
    if tip.cost.Some? {
      if budget == Some(n) { return d, n, false; }
      var costText := Text.Trim(tip.cost.value);
      d := d.(cost := Some(CostOf(costText)));
      n := n + 1;
    }
    return d, n, true;
  }

  /** An item's stats lookup, which resets the list, then the spans. */
  method ReadStatsSection(tip: Tip, budget: Option<nat>, d0: Data, n0: nat, d1: Data) returns (d: Data, n: nat, ok: bool)
    requires n0 == LayoutOf(Item, tip).stats && Going(Item, tip, budget, d0, n0, d1)
    ensures ok ==> n == LayoutOf(Item, tip).uniques && Going(Item, tip, budget, d0, n, d)
    ensures !ok ==> Stopped(Item, tip, budget, d0, n, d)
  {
    ghost var l := LayoutOf(Item, tip);
    d, n := d1, n0;
    if budget == Some(n) { return d, n, false; }
    n := n + 1;
    d := d.(stats := Some([]));
    d, n, ok := ReadStats(tip.stats, budget, n, d);
    PartialInStats(tip, n, d0);
  }

  /** Within the stats spans, the reads made so far differ from those before the stats
      lookup only in the list. */
  lemma PartialInStats(tip: Tip, m: nat, d0: Data)
    requires LayoutOf(Item, tip).stats < m <= LayoutOf(Item, tip).uniques
    ensures var l := LayoutOf(Item, tip);
      Partial(Item, tip, m, d0) == Partial(Item, tip, l.stats, d0).(stats := Some(CleanStats(tip.stats[..m - l.stats - 1])))
  {
  }

  /** The uniques lookup and its trimmed markup, as `uniques` for an item and as
      `description` for a rune. */
  method ReadUniques(kind: Kind, tip: Tip, budget: Option<nat>, d0: Data, n0: nat, d1: Data) returns (d: Data, n: nat, ok: bool)
    requires n0 == LayoutOf(kind, tip).uniques && Going(kind, tip, budget, d0, n0, d1)
    ensures ok ==> n == LayoutOf(kind, tip).tt && Going(kind, tip, budget, d0, n, d)
    ensures !ok ==> Stopped(kind, tip, budget, d0, n, d)
  {
    d, n := d1, n0;
    if budget == Some(n) { return d, n, false; }
    n := n + 1;
    if tip.uniques.Some? {
      if budget == Some(n) { return d, n, false; }
      var html := Text.Trim(tip.uniques.value);
      if kind == Item {
        d := d.(uniques := Some(html));
      } else {
        d := d.(description := Some(html));
      }
      n := n + 1;
    }
    return d, n, true;
  }

  /** A rune's type lookup and the type its class names. */
  method ReadType(tip: Tip, budget: Option<nat>, d0: Data, n0: nat, d1: Data) returns (d: Data, n: nat, ok: bool)
    requires n0 == LayoutOf(Rune, tip).tt && Going(Rune, tip, budget, d0, n0, d1)
    ensures ok ==> n == LayoutOf(Rune, tip).total && Going(Rune, tip, budget, d0, n, d)
    ensures !ok ==> Stopped(Rune, tip, budget, d0, n, d)
  {
    d, n := d1, n0;
    if budget == Some(n) { return d, n, false; }
    n := n + 1;
    if tip.tt.Some? {
      if budget == Some(n) { return d, n, false; }
      d := d.(runeType := Some(RuneType(tip.tt.value)));
      n := n + 1;
    }
    return d, n, true;
  }

  /** The reads of one attempt once the container is found, writing into the holder's
      record as they go. `complete` is false when a read throws, and the record then holds
      the writes of the reads made before it. */
  method Extract(kind: Kind, tip: Tip, budget: Option<nat>, d0: Data) returns (d: Data, complete: bool)
    ensures complete <==> budget.None? || LayoutOf(kind, tip).total <= budget.value
    ensures d == Partial(kind, tip, Reached(LayoutOf(kind, tip).total, budget), d0)
  {
    var n, ok;
    d, n, ok := ReadImage(kind, tip, budget, d0);
    if ok {
      d, n, ok := ReadTitle(kind, tip, budget, d0, n, d);
    }
    if ok && kind == Item {
      d, n, ok := ReadCost(tip, budget, d0, n, d);
      if ok {
        d, n, ok := ReadStatsSection(tip, budget, d0, n, d);
      }
    }
    if ok {
      d, n, ok := ReadUniques(kind, tip, budget, d0, n, d);
    }
    if ok && kind == Rune {
      d, n, ok := ReadType(tip, budget, d0, n, d);
    }
    return d, ok;
  }

  // ---------------------------------------------------------------------------------
  // Attempts

  /** An attempt finds the tooltip: the content check passes, the container lookup returns
      it, and none of the reads on it throws. */
  predicate Finds(kind: Kind, a: Attempt) {
    && a.Shown? && Ready(kind, a.waited) && a.found.Some?
    && (a.budget.None? || LayoutOf(kind, a.found.value).total <= a.budget.value)
  }

  /** One attempt: the record after it and whether it found the tooltip. Only an attempt
      that passes the content check and finds the container writes anything. */
  function TryOnce(kind: Kind, a: Attempt, d: Data): (r: (Data, bool))
    ensures r.1 <==> Finds(kind, a)
    ensures !(a.Shown? && Ready(kind, a.waited) && a.found.Some?) ==> r.0 == d
    ensures r.1 ==> r.0 == Partial(kind, a.found.value, LayoutOf(kind, a.found.value).total, d)
    ensures r.0.id == d.id && r.0.code == d.code && r.0.sort == d.sort && r.0.dataId == d.dataId
  {
    match a
    case Unshown => (d, false)
    case Shown(waited, found, budget) =>
      if !Ready(kind, waited) || found.None? then (d, false)
      else
        var total := LayoutOf(kind, found.value).total;
        (Partial(kind, found.value, Reached(total, budget), d), budget.None? || total <= budget.value)
  }

  method Try(kind: Kind, a: Attempt, d: Data) returns (d': Data, found: bool)
    ensures (d', found) == TryOnce(kind, a, d)
  {
    match a
    case Unshown =>
      d', found := d, false;
    case Shown(waited, tip, budget) =>
      if !Ready(kind, waited) {
        d', found := d, false;        // the content check times out
      } else if tip.None? {
        d', found := d, false;        // the container lookup returns null
      } else {
        d', found := Extract(kind, tip.value, budget, d);
      }
  }

  /** How the attempt loop ends: at the attempt that found the tooltip, after the last
      attempt, or by the pointer reset after a failed attempt throwing. */
  datatype LoopEnd = Succeeded(at: nat) | Exhausted | ResetThrew(after: nat)

  /** The attempt loop from attempt `k` on, with the record as it stands. It stops at the
      first attempt that finds the tooltip and never makes more than `TooltipRetries`. */
  function Attempts(kind: Kind, h: Holder, k: nat, d: Data): (r: (Data, LoopEnd))
    requires k <= TooltipRetries
    ensures r.1.Succeeded? ==> k <= r.1.at < TooltipRetries && Finds(kind, AttemptAt(h, r.1.at))
    ensures r.1.Succeeded? ==> forall j :: k <= j < r.1.at ==> !Finds(kind, AttemptAt(h, j)) && h.fault != ResetFault(j)
    ensures r.1.ResetThrew? ==> k <= r.1.after < TooltipRetries && h.fault == ResetFault(r.1.after)
    ensures r.1.ResetThrew? ==> forall j :: k <= j <= r.1.after ==> !Finds(kind, AttemptAt(h, j))
    ensures r.1.Exhausted? <==> forall j :: k <= j < TooltipRetries ==> !Finds(kind, AttemptAt(h, j)) && h.fault != ResetFault(j)
    ensures r.0.id == d.id && r.0.code == d.code && r.0.sort == d.sort && r.0.dataId == d.dataId
    decreases TooltipRetries - k
  {
    if k == TooltipRetries then (d, Exhausted)
    else
      var (d', found) := TryOnce(kind, AttemptAt(h, k), d);
      if found then (d', Succeeded(k))
      else if h.fault == ResetFault(k) then (d', ResetThrew(k))
      else Attempts(kind, h, k + 1, d')
  }

  /** The attempt loop of one holder. */
  method RunAttempts(kind: Kind, h: Holder, d0: Data) returns (d: Data, end: LoopEnd)
    ensures (d, end) == Attempts(kind, h, 0, d0)
  {
    d := d0;
    var attempt := 0;
    while attempt < TooltipRetries
      invariant attempt <= TooltipRetries
      invariant Attempts(kind, h, 0, d0) == Attempts(kind, h, attempt, d)
      decreases TooltipRetries - attempt
    {
      var success;
      ghost var before := d;
      d, success := Try(kind, AttemptAt(h, attempt), d);
      assert Attempts(kind, h, attempt, before)
          == if success then (d, Succeeded(attempt))
             else if h.fault == ResetFault(attempt) then (d, ResetThrew(attempt))
             else Attempts(kind, h, attempt + 1, d);
      if success {
        return d, Succeeded(attempt);
      }
      if h.fault == ResetFault(attempt) {
        return d, ResetThrew(attempt);
      }
      attempt := attempt + 1;
    }
    return d, Exhausted;
  }

  /** The attempt that succeeds decides every field its tooltip provides. */
  lemma {:induction false} SuccessFills(kind: Kind, h: Holder, k: nat, d: Data)
    requires k <= TooltipRetries
    ensures var (r, end) := Attempts(kind, h, k, d);
      end.Succeeded? ==>
        var t := AttemptAt(h, end.at).found.value;
        && (t.title.Some? ==> r.name == Some(Text.Trim(t.title.value)))
        && (t.image.Some? ==> r.image == Some(t.image.value))
        && (kind == Item ==> r.stats == Some(CleanStats(t.stats)))
        && (kind == Item && t.cost.Some? ==> r.cost == Some(CostOf(Text.Trim(t.cost.value))))
        && (kind == Item && t.uniques.Some? ==> r.uniques == Some(Text.Trim(t.uniques.value)))
        && (kind == Rune && t.uniques.Some? ==> r.description == Some(Text.Trim(t.uniques.value)))
        && (kind == Rune && t.tt.Some? ==> r.runeType == Some(RuneType(t.tt.value)))
    decreases TooltipRetries - k
  {
    if k < TooltipRetries {
      var a := AttemptAt(h, k);
      var (d', found) := TryOnce(kind, a, d);
      if found {
        CompleteFills(kind, a.found.value, d);
      } else if h.fault != ResetFault(k) {
        SuccessFills(kind, h, k + 1, d');
      }
    }
  }

  // ---------------------------------------------------------------------------------
  // Which fields a kind ever writes

  /** The fields a record of `kind` may hold: items never get `description` or `type`,
      runes never get `cost`, `stats` or `uniques`; an item's stats are non-empty trimmed
      texts and a rune's type is `'rune'` or `'unknown'`. */
  predicate Shape(kind: Kind, d: Data) {
    if kind == Item then
      && d.description.None? && d.runeType.None?
      && (d.stats.Some? ==> forall k :: 0 <= k < |d.stats.value| ==>
                              d.stats.value[k] != [] && Text.Trim(d.stats.value[k]) == d.stats.value[k])
    else
      && d.cost.None? && d.stats.None? && d.uniques.None?
      && (d.runeType.Some? ==> d.runeType.value == "rune" || d.runeType.value == "unknown")
  }

  /** An attempt, complete or not, keeps a record within its kind's shape. */
  lemma TryKeepsShape(kind: Kind, a: Attempt, d: Data)
    requires Shape(kind, d)
    ensures Shape(kind, TryOnce(kind, a, d).0)
  {
    if a.Shown? && Ready(kind, a.waited) && a.found.Some? {
      var t := a.found.value;
      var r := TryOnce(kind, a, d).0;
      var l := LayoutOf(kind, t);
      var m := Reached(l.total, a.budget);
      assert r == Partial(kind, t, m, d);
      if kind == Item && m > l.stats {
        CleanStatsClean(t.stats[..Min(m - l.stats - 1, |t.stats|)]);
      }
    }
  }

  lemma {:induction false} AttemptsKeepShape(kind: Kind, h: Holder, k: nat, d: Data)
    requires k <= TooltipRetries && Shape(kind, d)
    ensures Shape(kind, Attempts(kind, h, k, d).0)
    decreases TooltipRetries - k
  {
    if k < TooltipRetries {
      TryKeepsShape(kind, AttemptAt(h, k), d);
      AttemptsKeepShape(kind, h, k + 1, TryOnce(kind, AttemptAt(h, k), d).0);
    }
  }

  // ---------------------------------------------------------------------------------
  // One holder

  /** What one holder adds: the record kept, the ids pushed to `failed`, and whether the
      partial file is written after it. */
  datatype Outcome = Outcome(record: Option<Data>, failedIds: seq<JsObject.Value>, saves: bool)

  /** The object embedded in the holder's class attribute (`className || ''`). */
  function Tag(h: Holder, parse: string -> Option<Helpers.ClassObject>): Option<Helpers.ClassObject> {
    Helpers.ParseJsonFromClass(h.className.GetOr(""), parse)
  }

  /** `elementId ?? i`: the embedded `i` once the class attribute has been read and
      parsed, the index otherwise (and when the embedded `i` is null or undefined). */
  function FailedId(h: Holder, i: nat, parse: string -> Option<Helpers.ClassObject>): JsObject.Value {
    var elementId := if h.fault != ClassFault && Tag(h, parse).Some? then Tag(h, parse).value.i else JsObject.Null;
    elementId.OrElse(JsObject.Num(i))
  }

  /** The partial file is due after holder `i` of `total`. */
  predicate Due(i: nat, total: nat) {
    (i + 1) % BatchSize == 0 || i == total - 1
  }

  /** The record before the attempts: the embedded `i` and `t` as `id` and `code`, then
      the `data-sort` and `data-id` attributes. */
  function Start(h: Holder, parse: string -> Option<Helpers.ClassObject>): Data {
    var tag := Tag(h, parse);
    Data(if tag.Some? then Some(tag.value.i) else None, if tag.Some? then Some(tag.value.t) else None,
         h.sort, h.dataId, None, None, None, None, None, None, None)
  }

  /** Holder `i` of `total`. It is kept exactly when nothing before the attempts throws,
      an attempt finds the tooltip before a pointer reset throws, and the record's name
      is not empty; otherwise its id goes to `failed`. A throw after that point (writing
      the partial file, moving the pointer) pushes the id as well, even for a kept holder. */
  function Process(kind: Kind, h: Holder, i: nat, total: nat, parse: string -> Option<Helpers.ClassObject>): (o: Outcome)
    ensures o.record.Some? <==>
              && h.fault != ClassFault && h.fault != SortFault && h.fault != DataIdFault
              && var (d, end) := Attempts(kind, h, 0, Start(h, parse));
                 end.Succeeded? && d.name.Some? && d.name.value != []
    ensures o.record.Some? ==> o.record.value.name.Some? && o.record.value.name.value != []
    ensures o.record.Some? ==> exists j :: 0 <= j < TooltipRetries && Finds(kind, AttemptAt(h, j))
    ensures o.record.Some? ==> o.record.value.sort == h.sort && o.record.value.dataId == h.dataId
    ensures o.record.Some? || o.failedIds != []
    ensures |o.failedIds| <= if o.record.Some? then 1 else 2
    ensures h.fault == NoFault ==> |o.failedIds| == if o.record.Some? then 0 else 1
    ensures forall k :: 0 <= k < |o.failedIds| ==> o.failedIds[k] == FailedId(h, i, parse)
    ensures o.saves ==> Due(i, total)
    ensures Due(i, total) && (h.fault == NoFault || h.fault == MoveFault) ==> o.saves
  {
    var id := FailedId(h, i, parse);
    if h.fault == ClassFault || h.fault == SortFault || h.fault == DataIdFault then
      Outcome(None, [id], false)
    else
      var (d, end) := Attempts(kind, h, 0, Start(h, parse));
      Settle(h.fault, i, total, id, d, end)
  }

  /** What follows the attempt loop: the record is kept when an attempt succeeded and the
      name is not empty, else the id is pushed; then the partial file when due and the
      pointer move, either of which may throw and push the id. */
  function Settle(fault: Fault, i: nat, total: nat, id: JsObject.Value, d: Data, end: LoopEnd): (o: Outcome)
    ensures o.record.Some? <==> end.Succeeded? && d.name.Some? && d.name.value != []
    ensures o.record.Some? ==> o.record.value == d
    ensures o.record.Some? || o.failedIds != []
    ensures |o.failedIds| <= if o.record.Some? then 1 else 2
    ensures fault == NoFault && !end.ResetThrew? ==> |o.failedIds| == if o.record.Some? then 0 else 1
    ensures forall k :: 0 <= k < |o.failedIds| ==> o.failedIds[k] == id
    ensures o.saves ==> Due(i, total)
    ensures Due(i, total) && (fault == NoFault || fault == MoveFault) && !end.ResetThrew? ==> o.saves
  {
    if end.ResetThrew? then Outcome(None, [id], false)
    else
      var record := if end.Succeeded? && d.name.Some? && d.name.value != [] then Some(d) else None;
      var failed := if record.Some? then [] else [id];
      var due := Due(i, total);
      if due && fault == SaveFault then Outcome(record, failed + [id], false)
      else if fault == MoveFault then Outcome(record, failed + [id], due)
      else Outcome(record, failed, due)
  }

  /** The body of the holder loop. */
  method ProcessHolder(kind: Kind, h: Holder, i: nat, total: nat, parse: string -> Option<Helpers.ClassObject>)
    returns (o: Outcome)
    ensures o == Process(kind, h, i, total, parse)
  {
    var elementId := JsObject.Null;
    // the class attribute and the object embedded in it
    if h.fault == ClassFault {
      return Outcome(None, [elementId.OrElse(JsObject.Num(i))], false);
    }
    var data := Data(None, None, None, None, None, None, None, None, None, None, None);
    var tooltipData := Helpers.ParseJsonFromClass(h.className.GetOr(""), parse);
    if tooltipData.Some? {
      data := data.(id := Some(tooltipData.value.i));
      elementId := tooltipData.value.i;
      data := data.(code := Some(tooltipData.value.t));
    }
    if h.fault == SortFault || h.fault == DataIdFault {
      return Outcome(None, [elementId.OrElse(JsObject.Num(i))], false);
    }
    data := data.(sort := h.sort, dataId := h.dataId);
    var end;
    data, end := RunAttempts(kind, h, data);
    o := Finish(h.fault, i, total, elementId.OrElse(JsObject.Num(i)), data, end);
  }

  method Finish(fault: Fault, i: nat, total: nat, id: JsObject.Value, data: Data, end: LoopEnd) returns (o: Outcome)
    ensures o == Settle(fault, i, total, id, data, end)
  {
    if end.ResetThrew? {
      return Outcome(None, [id], false);
    }
    var record: Option<Data> := None;
    var failed: seq<JsObject.Value> := [];
    if end.Succeeded? && data.name.Some? && data.name.value != [] {
      record := Some(data);
    } else {
      failed := failed + [id];
    }
    var due := (i + 1) % BatchSize == 0 || i == total - 1;
    if due && fault == SaveFault {
      return Outcome(record, failed + [id], false);
    }
    if fault == MoveFault {
      return Outcome(record, failed + [id], due);
    }
    return Outcome(record, failed, due);
  }

  // ---------------------------------------------------------------------------------
  // The whole run

  /** What the run holds after a sequence of holders: the kept records in holder order,
      the failed ids, and the successive contents of the partial file. */
  datatype Progress = Progress(results: seq<Data>, failed: seq<JsObject.Value>, saves: seq<seq<Data>>)

  /** The run after one more holder with outcome `o`. */
  function Next(q: Progress, o: Outcome): Progress {
    var results := if o.record.Some? then q.results + [o.record.value] else q.results;
    Progress(results, q.failed + o.failedIds, if o.saves then q.saves + [results] else q.saves)
  }

  /** The run after holders with outcomes `os`. */
  function Collect(os: seq<Outcome>): Progress
    decreases |os|
  {
    if os == [] then Progress([], [], []) else Next(Collect(os[..|os| - 1]), os[|os| - 1])
  }

  /** The outcome of each holder, in order. */
  function Outcomes(kind: Kind, hs: seq<Holder>, parse: string -> Option<Helpers.ClassObject>): seq<Outcome> {
    seq(|hs|, i requires 0 <= i < |hs| => Process(kind, hs[i], i, |hs|, parse))
  }

  /** `extractTooltipData`: every holder in order; returns the kept records, the failed
      ids and each content written to the partial file. */
  method ExtractTooltipData(kind: Kind, hs: seq<Holder>, parse: string -> Option<Helpers.ClassObject>)
    returns (results: seq<Data>, failed: seq<JsObject.Value>, saves: seq<seq<Data>>)
    ensures Progress(results, failed, saves) == Collect(Outcomes(kind, hs, parse))
  {
    ghost var os := Outcomes(kind, hs, parse);
    results, failed, saves := [], [], [];
    var i := 0;
    while i < |hs|
      invariant i <= |hs|
      invariant Progress(results, failed, saves) == Collect(os[..i])
    {
      var o := ProcessHolder(kind, hs[i], i, |hs|, parse);
      assert os[..i + 1][..i] == os[..i];
      results, failed, saves := Record(results, failed, saves, o);
      i := i + 1;
    }
    assert os[..i] == os;
  }

  /** The pushes after one holder: its record to the results, its ids to `failed`, and,
      when the file is due, the whole results list to the partial file. */
  method Record(results: seq<Data>, failed: seq<JsObject.Value>, saves: seq<seq<Data>>, o: Outcome)
    returns (results': seq<Data>, failed': seq<JsObject.Value>, saves': seq<seq<Data>>)
    ensures Progress(results', failed', saves') == Next(Progress(results, failed, saves), o)
  {
    results', failed', saves' := results, failed, saves;
    if o.record.Some? {
      results' := results' + [o.record.value];
    }
    failed' := failed' + o.failedIds;
    if o.saves {
      saves' := saves' + [results'];
    }
  }

  /** Every holder is accounted for by a record or a failed id and every record has a
      name; without faults outside the attempts, a holder is accounted for exactly once. */
  predicate Sound(o: Outcome) {
    && (o.record.Some? || o.failedIds != [])
    && (o.record.Some? ==> o.record.value.name.Some? && o.record.value.name.value != [])
  }

  predicate Exact(o: Outcome) {
    |o.failedIds| == if o.record.Some? then 0 else 1
  }

  /** Each holder adds at most one record; the records and failed ids together account for
      every holder, exactly when no holder has a fault outside its attempts. */
  lemma {:induction false} CollectCounts(os: seq<Outcome>)
    ensures |Collect(os).results| <= |os|
    ensures (forall k :: 0 <= k < |os| ==> Sound(os[k])) ==> |Collect(os).results| + |Collect(os).failed| >= |os|
    ensures (forall k :: 0 <= k < |os| ==> Exact(os[k])) ==> |Collect(os).results| + |Collect(os).failed| == |os|
    decreases |os|
  {
    if os != [] {
      var init := os[..|os| - 1];
      CollectCounts(init);
      assert forall k :: 0 <= k < |init| ==> init[k] == os[k];
    }
  }

  /** Each kept record is the record of some holder. */
  lemma {:induction false} CollectOrigin(os: seq<Outcome>)
    ensures forall m :: 0 <= m < |Collect(os).results| ==>
              exists k :: 0 <= k < |os| && os[k].record == Some(Collect(os).results[m])
    decreases |os|
  {
    if os != [] {
      var init := os[..|os| - 1];
      CollectOrigin(init);
      var q := Collect(init);
      var p := Collect(os);
      assert p == Next(q, os[|os| - 1]);
      forall m | 0 <= m < |p.results|
        ensures exists k :: 0 <= k < |os| && os[k].record == Some(p.results[m])
      {
        if m < |q.results| {
          var k :| 0 <= k < |init| && init[k].record == Some(q.results[m]);
          assert os[k] == init[k];
          assert os[k].record == Some(p.results[m]);
        } else {
          assert os[|os| - 1].record == Some(p.results[m]);
        }
      }
    } else {
      assert Collect(os).results == [];
    }
  }

  /** Records and failed ids keep holder order: the run over consecutive runs of holders
      lists the first run's records and ids, then the second's. */
  lemma {:induction false} CollectAppend(a: seq<Outcome>, b: seq<Outcome>)
    ensures Collect(a + b).results == Collect(a).results + Collect(b).results
    ensures Collect(a + b).failed == Collect(a).failed + Collect(b).failed
    decreases |b|
  {
    if b == [] {
      assert a + b == a;
    } else {
      var n := |b| - 1;
      CollectAppend(a, b[..n]);
      assert (a + b)[..|a + b| - 1] == a + b[..n];
      assert (a + b)[|a + b| - 1] == b[n];
    }
  }

  /** One holder contributes its record, if kept, and its failed ids. */
  lemma CollectOne(o: Outcome)
    ensures Collect([o]).results == if o.record.Some? then [o.record.value] else []
    ensures Collect([o]).failed == o.failedIds
  {
    assert [o][..0] == [];
  }

  /** `a` is a prefix of `b`. */
  predicate PrefixOf<T(==)>(a: seq<T>, b: seq<T>) {
    |a| <= |b| && b[..|a|] == a
  }

  /** The partial file always holds the whole list kept so far: each content written is a
      prefix of the next and of the final results. */
  lemma {:induction false} SavesArePrefixes(os: seq<Outcome>)
    ensures forall k :: 0 <= k < |Collect(os).saves| ==> PrefixOf(Collect(os).saves[k], Collect(os).results)
    ensures forall k :: 0 < k < |Collect(os).saves| ==> PrefixOf(Collect(os).saves[k - 1], Collect(os).saves[k])
    decreases |os|
  {
    if os != [] {
      var init := os[..|os| - 1];
      SavesArePrefixes(init);
      var q := Collect(init);
      var p := Collect(os);
      assert p == Next(q, os[|os| - 1]);
      assert PrefixOf(q.results, p.results);
      forall k | 0 <= k < |p.saves|
        ensures PrefixOf(p.saves[k], p.results)
      {
        if k < |q.saves| {
          assert p.saves[k] == q.saves[k];
          assert PrefixOf(q.saves[k], q.results);
          assert p.results[..|q.saves[k]|] == q.results[..|q.saves[k]|];
        } else {
          assert p.saves[k] == p.results;
        }
      }
      forall k | 0 < k < |p.saves|
        ensures PrefixOf(p.saves[k - 1], p.saves[k])
      {
        if k == |q.saves| {
          assert p.saves[k] == p.results;
          assert p.saves[k - 1] == q.saves[k - 1];
          assert PrefixOf(q.saves[k - 1], q.results);
          assert p.results[..|q.saves[k - 1]|] == q.results[..|q.saves[k - 1]|];
        } else {
          assert p.saves[k] == q.saves[k] && p.saves[k - 1] == q.saves[k - 1];
        }
      }
    }
  }

  /** When the last holder writes the file, it holds exactly the returned records. */
  lemma LastSaveIsComplete(os: seq<Outcome>)
    requires os != [] && os[|os| - 1].saves
    ensures Collect(os).saves != [] && Collect(os).saves[|Collect(os).saves| - 1] == Collect(os).results
  {
  }

  /** The file is written at most once per full batch, plus once after the last holder,
      when writes happen only when due. */
  lemma {:induction false} SaveCount(os: seq<Outcome>, total: nat)
    requires |os| <= total
    requires forall k :: 0 <= k < |os| ==> os[k].saves ==> Due(k, total)
    ensures |Collect(os).saves| <= |os| / BatchSize + (if |os| == total && |os| % BatchSize != 0 then 1 else 0)
    decreases |os|
  {
    if os != [] {
      var n := |os|;
      var init := os[..n - 1];
      assert forall k :: 0 <= k < |init| ==> init[k] == os[k];
      SaveCount(init, total);
      if os[n - 1].saves && n % BatchSize != 0 {
        assert Due(n - 1, total);
        assert n == total;
      }
    }
  }

  /** A kept record has its kind's shape, and a kept item has a stats list. */
  lemma HolderShaped(kind: Kind, h: Holder, i: nat, total: nat, parse: string -> Option<Helpers.ClassObject>)
    ensures var o := Process(kind, h, i, total, parse);
      o.record.Some? ==> Shape(kind, o.record.value) && (kind == Item ==> o.record.value.stats.Some?)
  {
    var start := Start(h, parse);
    assert Shape(kind, start);
    AttemptsKeepShape(kind, h, 0, start);
    SuccessFills(kind, h, 0, start);
  }

  /** Records and failed ids account for every holder, exactly once when no holder has a
      fault outside its attempts. */
  lemma RunCounts(kind: Kind, hs: seq<Holder>, parse: string -> Option<Helpers.ClassObject>)
    ensures var p := Collect(Outcomes(kind, hs, parse));
      && |p.results| <= |hs| && |p.results| + |p.failed| >= |hs|
      && ((forall k :: 0 <= k < |hs| ==> hs[k].fault == NoFault) ==> |p.results| + |p.failed| == |hs|)
  {
    var os := Outcomes(kind, hs, parse);
    assert forall k :: 0 <= k < |hs| ==> Sound(os[k]);
    assert (forall k :: 0 <= k < |hs| ==> hs[k].fault == NoFault) ==> forall k :: 0 <= k < |hs| ==> Exact(os[k]);
    CollectCounts(os);
  }

  /** The partial file is written at most once per full batch plus once at the end, and,
      unless the last holder's file write throws, its last content is the returned list. */
  lemma RunSaves(kind: Kind, hs: seq<Holder>, parse: string -> Option<Helpers.ClassObject>)
    ensures var p := Collect(Outcomes(kind, hs, parse));
      && |p.saves| <= |hs| / BatchSize + (if |hs| % BatchSize != 0 then 1 else 0)
      && (hs != [] && (hs[|hs| - 1].fault == NoFault || hs[|hs| - 1].fault == MoveFault) ==>
            p.saves != [] && p.saves[|p.saves| - 1] == p.results)
  {
    var os := Outcomes(kind, hs, parse);
    assert forall k :: 0 <= k < |os| ==> os[k].saves ==> Due(k, |hs|);
    SaveCount(os, |hs|);
    if hs != [] && (hs[|hs| - 1].fault == NoFault || hs[|hs| - 1].fault == MoveFault) {
      assert Due(|hs| - 1, |hs|);
      assert os[|os| - 1].saves;
      LastSaveIsComplete(os);
    }
  }

  /** Every kept record is named and shaped for its kind. */
  lemma RunRecords(kind: Kind, hs: seq<Holder>, parse: string -> Option<Helpers.ClassObject>)
    ensures var p := Collect(Outcomes(kind, hs, parse));
      forall m :: 0 <= m < |p.results| ==>
        && p.results[m].name.Some? && p.results[m].name.value != []
        && Shape(kind, p.results[m]) && (kind == Item ==> p.results[m].stats.Some?)
  {
    var os := Outcomes(kind, hs, parse);
    var p := Collect(os);
    CollectOrigin(os);
    forall m | 0 <= m < |p.results|
      ensures && p.results[m].name.Some? && p.results[m].name.value != []
              && Shape(kind, p.results[m]) && (kind == Item ==> p.results[m].stats.Some?)
    {
      var k :| 0 <= k < |os| && os[k].record == Some(p.results[m]);
      HolderShaped(kind, hs[k], k, |hs|, parse);
    }
  }

  /** The item list script: every kept item has a non-empty name, a stats list of
      non-empty trimmed texts, and neither a description nor a type. */
  method ExtractItemData(hs: seq<Holder>, parse: string -> Option<Helpers.ClassObject>)
    returns (results: seq<Data>, failed: seq<JsObject.Value>, saves: seq<seq<Data>>)
    ensures Progress(results, failed, saves) == Collect(Outcomes(Item, hs, parse))
    ensures forall k :: 0 <= k < |results| ==>
      && results[k].name.Some? && results[k].name.value != []
      && results[k].stats.Some? && results[k].description.None? && results[k].runeType.None?
      && forall s :: 0 <= s < |results[k].stats.value| ==>
           results[k].stats.value[s] != [] && Text.Trim(results[k].stats.value[s]) == results[k].stats.value[s]
    ensures |results| <= |hs| && |results| + |failed| >= |hs|
  {
    results, failed, saves := ExtractTooltipData(Item, hs, parse);
    RunCounts(Item, hs, parse);
    RunRecords(Item, hs, parse);
  }

  /** The rune list script: every kept rune has a non-empty name, no cost, stats or
      uniques, and a type, when it has one, of `'rune'` or `'unknown'`. */
  method ExtractRuneData(hs: seq<Holder>, parse: string -> Option<Helpers.ClassObject>)
    returns (results: seq<Data>, failed: seq<JsObject.Value>, saves: seq<seq<Data>>)
    ensures Progress(results, failed, saves) == Collect(Outcomes(Rune, hs, parse))
    ensures forall k :: 0 <= k < |results| ==>
      && results[k].name.Some? && results[k].name.value != []
      && results[k].cost.None? && results[k].stats.None? && results[k].uniques.None?
      && (results[k].runeType.Some? ==> results[k].runeType.value in {"rune", "unknown"})
    ensures |results| <= |hs| && |results| + |failed| >= |hs|
  {
    results, failed, saves := ExtractTooltipData(Rune, hs, parse);
    RunCounts(Rune, hs, parse);
    RunRecords(Rune, hs, parse);
  }

  /** A holder whose first attempt reads the title and then throws at the cost lookup
      (its budget is three reads), and whose second attempt finds a tooltip without a
      title span. */
  function StaleHolder(): Holder {
    var first := Tip(false, None, Some("Old"), Some("1"), ["x"], None, None);
    Holder(None, None, None, [Shown(Some(first), Some(first), Some(3)),
                              Shown(Some(first), Some(first.(title := None)), None)], NoFault)
  }

  lemma StaleAttempts(d0: Data)
    ensures var (d, end) := Attempts(Item, StaleHolder(), 0, d0);
            end == Succeeded(1) && d.name == Some("Old")
  {
    var h := StaleHolder();
    var first := h.attempts[0].found.value;
    assert !Text.IsSpace('O') && !Text.IsSpace('d');
    assert Text.Trim("Old") == "Old";
    assert Ready(Item, Some(first));
    assert LayoutOf(Item, first).name == 1;
    var d1 := TryOnce(Item, AttemptAt(h, 0), d0).0;
    assert d1 == Partial(Item, first, 3, d0);
    assert !Finds(Item, AttemptAt(h, 0));
    assert Finds(Item, AttemptAt(h, 1));
    CompleteFills(Item, h.attempts[1].found.value, d1);
  }

  /** A failed attempt's writes stay in the record: in the holder above, the kept record
      carries the name the first attempt read. */
  lemma StaleNameKept(parse: string -> Option<Helpers.ClassObject>)
    ensures var o := Process(Item, StaleHolder(), 0, 1, parse);
            o.record.Some? && o.record.value.name == Some("Old")
  {
    StaleAttempts(Start(StaleHolder(), parse));
  }
}
