/** The in-page extraction of a champion guide page: abilities, stats at each of the 15
    levels, builds, runes and spells, situational items and skill orders. The page is a
    snapshot of the elements the selectors find, in document order; a lookup that finds
    nothing is `None`. The stats block list at each level is a parameter: it is what the
    page shows once the `#range` slider has been set to that level. */
module ChampionPage {
  import opened Wrappers
  import Text
  import JsNumber
  import JsObject

  /** The number of levels read, 1 to 15. */
  const Levels: nat := 15

  // ---------------------------------------------------------------------------------
  // Abilities

  /** A child of an ability's `.upper .info .name` wrapper: text, a span, or another
      element (which holds no span). */
  datatype NameNode = TextNode(text: string) | Span(text: string) | Element(text: string)

  datatype Lower = Lower(html: string, text: string)

  /** One `.statsBlock.abilities .statsBlock__block`: its name wrapper's children, the
      cooldown and cost span texts, the `src` of `.upper img` and the `.lower` element. */
  datatype AbilityBlock = AbilityBlock(nameWrap: Option<seq<NameNode>>, cooldown: seq<string>,
                                       cost: seq<string>, icon: Option<string>, lower: Option<Lower>)

  datatype Ability = Ability(key: Option<string>, name: Option<string>, cooldown: seq<string>,
                             cost: seq<string>, icon: Option<string>,
                             descriptionHtml: Option<string>, descriptionText: Option<string>)

  /** `textContent` of a list of nodes. */
  function TextOf(nodes: seq<NameNode>): string {
    if nodes == [] then [] else nodes[0].text + TextOf(nodes[1..])
  }

  /** Where `querySelector('span')` lands among the children. */
  function FirstSpan(nodes: seq<NameNode>): (r: Option<nat>)
    ensures r.Some? ==> r.value < |nodes| && nodes[r.value].Span? &&
                        forall j :: 0 <= j < r.value ==> !nodes[j].Span?
    ensures r.None? ==> forall j :: 0 <= j < |nodes| ==> !nodes[j].Span?
  {
    if nodes == [] then None
    else if nodes[0].Span? then Some(0)
    else match FirstSpan(nodes[1..])
      case None => None
      case Some(j) => Some(j + 1)
  }

  /** `s.trim()` of every text, in order. */
  function TrimAll(texts: seq<string>): (r: seq<string>)
    ensures |r| == |texts|
    ensures forall i :: 0 <= i < |texts| ==> r[i] == Text.Trim(texts[i])
  {
    if texts == [] then [] else [Text.Trim(texts[0])] + TrimAll(texts[1..])
  }

  /** One ability: the first span's trimmed text as `key`, the wrapper's text with that
      span removed and white space collapsed as `name`, and the trimmed spans, icon and
      description. */
  function AbilityOf(b: AbilityBlock): (a: Ability)
    ensures a.key.Some? <==> b.nameWrap.Some? && FirstSpan(b.nameWrap.value).Some?
    ensures a.name.Some? <==> b.nameWrap.Some?
    ensures a.cooldown == TrimAll(b.cooldown) && a.cost == TrimAll(b.cost)
    ensures a.descriptionHtml.Some? <==> b.lower.Some?
    ensures a.descriptionText.Some? <==> b.lower.Some?
  {
    var kn := match b.nameWrap
      case None => (None, None)
      case Some(nodes) =>
        match FirstSpan(nodes)
        case None => (None, Some(Text.Squish(TextOf(nodes))))
        case Some(s) =>
          (Some(Text.Trim(nodes[s].text)), Some(Text.Squish(TextOf(nodes[..s]) + TextOf(nodes[s + 1..]))));
    Ability(kn.0, kn.1, TrimAll(b.cooldown), TrimAll(b.cost), b.icon,
            if b.lower.Some? then Some(Text.Trim(b.lower.value.html)) else None,
            if b.lower.Some? then Some(Text.Squish(b.lower.value.text)) else None)
  }

  /** `textContent` of adjacent node lists is the two texts joined. */
  lemma {:induction false} TextOfAppend(a: seq<NameNode>, b: seq<NameNode>)
    ensures TextOf(a + b) == TextOf(a) + TextOf(b)
    decreases |a|
  {
    if a == [] {
      assert a + b == b;
    } else {
      assert (a + b)[0] == a[0];
      assert (a + b)[1..] == a[1..] + b;
      TextOfAppend(a[1..], b);
    }
  }

  /** The first span of `pre`, a span, and `post`, when `pre` holds none, is that span. */
  lemma {:induction false} FirstSpanAfter(pre: seq<NameNode>, k: string, post: seq<NameNode>)
    requires forall j :: 0 <= j < |pre| ==> !pre[j].Span?
    ensures FirstSpan(pre + [Span(k)] + post) == Some(|pre|)
    decreases |pre|
  {
    var nodes := pre + [Span(k)] + post;
    if pre == [] {
      assert nodes[0] == Span(k);
    } else {
      assert nodes[0] == pre[0];
      assert nodes[1..] == pre[1..] + [Span(k)] + post;
      FirstSpanAfter(pre[1..], k, post);
    }
  }

  /** With `pre` holding no span, the span `k` that follows it gives the `key`, and the
      `name` is the wrapper's text with exactly that span's text taken out. */
  lemma AbilityWithSpan(b: AbilityBlock, pre: seq<NameNode>, k: string, post: seq<NameNode>)
    requires b.nameWrap == Some(pre + [Span(k)] + post)
    requires forall j :: 0 <= j < |pre| ==> !pre[j].Span?
    ensures AbilityOf(b).key == Some(Text.Trim(k))
    ensures AbilityOf(b).name == Some(Text.Squish(TextOf(pre) + TextOf(post)))
    ensures TextOf(b.nameWrap.value) == TextOf(pre) + k + TextOf(post)
  {
    var nodes := b.nameWrap.value;
    FirstSpanAfter(pre, k, post);
    var s := |pre|;
    assert nodes[s] == Span(k);
    assert nodes[..s] == pre;
    assert nodes[s + 1..] == post;
    assert TextOf([Span(k)]) == k by {
      assert TextOf([Span(k)]) == k + TextOf([]);
      assert k + [] == k;
    }
    TextOfAppend(pre, [Span(k)]);
    TextOfAppend(pre + [Span(k)], post);
  }

  /** The other fields of an ability: without a span there is no `key` and the whole
      wrapper text is the `name`; the icon is the image `src`; the description is the
      trimmed markup and the collapsed text of `.lower`. */
  lemma AbilityFields(b: AbilityBlock)
    ensures b.nameWrap.None? ==> AbilityOf(b).key.None? && AbilityOf(b).name.None?
    ensures b.nameWrap.Some? && (forall j :: 0 <= j < |b.nameWrap.value| ==> !b.nameWrap.value[j].Span?) ==>
              AbilityOf(b).key.None? && AbilityOf(b).name == Some(Text.Squish(TextOf(b.nameWrap.value)))
    ensures AbilityOf(b).icon == b.icon
    ensures b.lower.Some? ==> AbilityOf(b).descriptionHtml == Some(Text.Trim(b.lower.value.html)) &&
                              AbilityOf(b).descriptionText == Some(Text.Squish(b.lower.value.text))
  {
    if b.nameWrap.Some? && (forall j :: 0 <= j < |b.nameWrap.value| ==> !b.nameWrap.value[j].Span?) {
      assert FirstSpan(b.nameWrap.value).None?;
    }
  }

  /** An ability's name never has white space at either end or two white-space
      characters in a row. */
  lemma AbilityNameShape(b: AbilityBlock)
    ensures var n := AbilityOf(b).name;
      n.Some? ==> Text.SingleSpaced(n.value) &&
                  (n.value != [] ==> !Text.IsSpace(n.value[0]) && !Text.IsSpace(n.value[|n.value| - 1]))
  {
    if b.nameWrap.Some? {
      var nodes := b.nameWrap.value;
      match FirstSpan(nodes)
      case None => Text.SquishShape(TextOf(nodes));
      case Some(s) => Text.SquishShape(TextOf(nodes[..s]) + TextOf(nodes[s + 1..]));
    }
  }

  function AbilitiesOf(blocks: seq<AbilityBlock>): (r: seq<Ability>)
    ensures |r| == |blocks| && forall i :: 0 <= i < |blocks| ==> r[i] == AbilityOf(blocks[i])
  {
    seq(|blocks|, i requires 0 <= i < |blocks| => AbilityOf(blocks[i]))
  }

  // ---------------------------------------------------------------------------------
  // Stats at one level

  /** One `.statsBlock.champion .statsBlock__block`: the text of its `.name` and `.value`. */
  datatype StatBlock = StatBlock(name: Option<string>, value: Option<string>)

  /** Which blocks count: those with both elements, or only those whose label and value
      are both non-empty after normalising. */
  datatype KeepRule = WhenPresent | WhenNonEmpty

  /** A stat as stored: the number `parseFloat` reads from the text with its commas
      removed, or the text itself when that is NaN. */
  datatype StatValue = Number(read: string) | Label(text: string)

  /** What a block contributes, if anything: its normalised label and value. */
  function EntryOf(rule: KeepRule, b: StatBlock): (e: Option<(string, string)>)
    ensures e.Some? ==> b.name.Some? && b.value.Some? &&
                        e.value == (Text.Squish(b.name.value), Text.Squish(b.value.value))
    ensures e.Some? && rule == WhenNonEmpty ==> e.value.0 != [] && e.value.1 != []
    ensures b.name.Some? && b.value.Some? && rule == WhenPresent ==> e.Some?
    ensures b.name.Some? && b.value.Some? && Text.Squish(b.name.value) != [] && Text.Squish(b.value.value) != [] ==> e.Some?
  {
    if b.name.Some? && b.value.Some? then
      var key := Text.Squish(b.name.value);
      var text := Text.Squish(b.value.value);
      if rule == WhenPresent || (key != [] && text != []) then Some((key, text)) else None
    else None
  }

  /** `parseFloat(v.replace(/,/g, ''))`, or `v` when that is NaN. */
  function Normalise(v: string): (r: StatValue)
    ensures r.Label? <==> JsNumber.ParseFloatIsNaN(Text.RemoveChar(v, ','))
    ensures r.Label? ==> r.text == v
    ensures r.Number? ==> r.read == Text.RemoveChar(v, ',') && ',' !in r.read
  {
    var clean := Text.RemoveChar(v, ',');
    if JsNumber.ParseFloatIsNaN(clean) then Label(v) else Number(clean)
  }

  /** The `raw` object after the first blocks: each kept block assigns its value to its
      label, so a later block with the same label replaces the value in place. */
  function RawOf(rule: KeepRule, blocks: seq<StatBlock>): (r: JsObject.Entries<string>)
    ensures JsObject.DistinctKeys(r)
    decreases |blocks|
  {
    if blocks == [] then []
    else
      var r := RawOf(rule, blocks[..|blocks| - 1]);
      match EntryOf(rule, blocks[|blocks| - 1])
      case None => r
      case Some(e) => JsObject.AssignDistinct(r, e.0, e.1); JsObject.Assign(r, e.0, e.1)
  }

  /** Block `i` is kept under `key`. */
  predicate LabelledAt(rule: KeepRule, blocks: seq<StatBlock>, i: int, key: string) {
    0 <= i < |blocks| && EntryOf(rule, blocks[i]).Some? && EntryOf(rule, blocks[i]).value.0 == key
  }

  /** `raw` has a label exactly when some kept block carries it. */
  lemma {:induction false} RawHasKey(rule: KeepRule, blocks: seq<StatBlock>, key: string)
    ensures JsObject.HasKey(RawOf(rule, blocks), key) <==> exists i :: LabelledAt(rule, blocks, i, key)
    decreases |blocks|
  {
    if blocks != [] {
      var n := |blocks| - 1;
      RawHasKey(rule, blocks[..n], key);
      RawHasKeyStep(rule, blocks, key);
      LabelledInit(rule, blocks, blocks[..n], key);
    }
  }

  /** The last block adds its label to what the earlier blocks left. */
  lemma RawHasKeyStep(rule: KeepRule, blocks: seq<StatBlock>, key: string)
    requires blocks != []
    ensures JsObject.HasKey(RawOf(rule, blocks), key) <==>
              JsObject.HasKey(RawOf(rule, blocks[..|blocks| - 1]), key) || LabelledAt(rule, blocks, |blocks| - 1, key)
  {
    var n := |blocks| - 1;
    var r := RawOf(rule, blocks[..n]);
    var e := EntryOf(rule, blocks[n]);
    if e.Some? {
      assert RawOf(rule, blocks) == JsObject.Assign(r, e.value.0, e.value.1);
      if e.value.0 == key {
        JsObject.AssignGetSame(r, e.value.0, e.value.1);
      } else {
        JsObject.AssignGetOther(r, e.value.0, e.value.1, key);
      }
    } else {
      assert RawOf(rule, blocks) == r;
    }
  }

  /** The blocks before the last carry a label exactly where the whole list does. */
  lemma LabelledInit(rule: KeepRule, blocks: seq<StatBlock>, init: seq<StatBlock>, key: string)
    requires blocks != [] && init == blocks[..|blocks| - 1]
    ensures (exists i :: LabelledAt(rule, blocks, i, key)) <==>
              (exists i :: LabelledAt(rule, init, i, key)) || LabelledAt(rule, blocks, |blocks| - 1, key)
  {
    var n := |blocks| - 1;
    forall i | LabelledAt(rule, blocks, i, key) && i < n ensures LabelledAt(rule, init, i, key) {
      assert init[i] == blocks[i];
    }
    forall i | LabelledAt(rule, init, i, key) ensures LabelledAt(rule, blocks, i, key) {
      assert init[i] == blocks[i];
    }
  }

  /** `raw` holds, under a label, the value of the last kept block that carries it. */
  lemma {:induction false} RawLast(rule: KeepRule, blocks: seq<StatBlock>, key: string, i: nat)
    requires LabelledAt(rule, blocks, i, key)
    requires forall j :: i < j < |blocks| ==> !LabelledAt(rule, blocks, j, key)
    ensures JsObject.Get(RawOf(rule, blocks), key) == Some(EntryOf(rule, blocks[i]).value.1)
    decreases |blocks|
  {
    var n := |blocks| - 1;
    var init := blocks[..n];
    var r := RawOf(rule, init);
    if i == n {
      var e := EntryOf(rule, blocks[n]).value;
      JsObject.AssignGetSame(r, e.0, e.1);
    } else {
      assert init[i] == blocks[i];
      forall j | i < j < n ensures !LabelledAt(rule, init, j, key) {
        assert init[j] == blocks[j];
        assert !LabelledAt(rule, blocks, j, key);
      }
      RawLast(rule, init, key, i);
      assert !LabelledAt(rule, blocks, n, key);
      match EntryOf(rule, blocks[n])
      case None =>
      case Some(e) =>
        JsObject.AssignGetOther(r, e.0, e.1, key);
    }
  }

  /** With the non-empty rule, no label and no value in `raw` is empty. */
  lemma {:induction false} RawNonEmpty(blocks: seq<StatBlock>)
    ensures forall i :: 0 <= i < |RawOf(WhenNonEmpty, blocks)| ==>
              RawOf(WhenNonEmpty, blocks)[i].0 != [] && RawOf(WhenNonEmpty, blocks)[i].1 != []
    decreases |blocks|
  {
    if blocks != [] {
      var n := |blocks| - 1;
      RawNonEmpty(blocks[..n]);
      var r := RawOf(WhenNonEmpty, blocks[..n]);
      match EntryOf(WhenNonEmpty, blocks[n])
      case None =>
      case Some(e) =>
        var r' := JsObject.Assign(r, e.0, e.1);
        forall i | 0 <= i < |r'| ensures r'[i].0 != [] && r'[i].1 != [] {
          if i < |r| {
            assert r'[i] == (if r[i].0 == e.0 then (e.0, e.1) else r[i]);
          } else {
            assert r' == r + [(e.0, e.1)];
          }
        }
    }
  }

  /** The blocks of one level, read in order into `stats` and `raw`. */
  method ExtractStatsForLevel(rule: KeepRule, blocks: seq<StatBlock>)
    returns (stats: JsObject.Entries<StatValue>, raw: JsObject.Entries<string>)
    ensures raw == RawOf(rule, blocks)
    ensures stats == JsObject.MapValues(raw, Normalise)
  {
    stats, raw := [], [];
    for j := 0 to |blocks|
      invariant raw == RawOf(rule, blocks[..j])
      invariant stats == JsObject.MapValues(raw, Normalise)
    {
      assert blocks[..j + 1][..j] == blocks[..j];
      var b := blocks[j];
      if b.name.Some? && b.value.Some? {
        var key := Text.Squish(b.name.value);
        var text := Text.Squish(b.value.value);
        if rule == WhenPresent || (key != [] && text != []) {
          JsObject.MapValuesAssign(raw, key, text, Normalise);
          raw := JsObject.Assign(raw, key, text);
          stats := JsObject.Assign(stats, key, Normalise(text));
        }
      }
    }
    assert blocks[..|blocks|] == blocks;
  }

  /** `{ level, stats, raw }`. */
  datatype LevelStats = LevelStats(level: nat, stats: JsObject.Entries<StatValue>, raw: JsObject.Entries<string>)

  /** What the page yields at `level`: its `raw` texts and their converted `stats`. */
  function LevelOf(rule: KeepRule, statsAt: nat -> seq<StatBlock>, level: nat): LevelStats {
    var raw := RawOf(rule, statsAt(level));
    LevelStats(level, JsObject.MapValues(raw, Normalise), raw)
  }

  /** What the page yields at levels 1 to `n`, in order. */
  function LevelsUpTo(rule: KeepRule, statsAt: nat -> seq<StatBlock>, n: nat): (r: seq<LevelStats>)
    ensures |r| == n
    ensures forall k :: 0 <= k < n ==> r[k] == LevelOf(rule, statsAt, k + 1)
  {
    if n == 0 then [] else LevelsUpTo(rule, statsAt, n - 1) + [LevelOf(rule, statsAt, n)]
  }

  /** Levels 1 to 15 in order, each read from what the page shows at that level. */
  method StatsByLevel(rule: KeepRule, statsAt: nat -> seq<StatBlock>) returns (levels: seq<LevelStats>)
    ensures |levels| == Levels
    ensures forall k :: 0 <= k < Levels ==>
              && levels[k].level == k + 1
              && levels[k].raw == RawOf(rule, statsAt(k + 1))
              && levels[k].stats == JsObject.MapValues(levels[k].raw, Normalise)
  {
    levels := [];
    for level := 1 to Levels + 1
      invariant |levels| == level - 1 && levels == LevelsUpTo(rule, statsAt, level - 1)
    {
      var stats, raw := ExtractStatsForLevel(rule, statsAt(level));
      assert LevelStats(level, stats, raw) == LevelOf(rule, statsAt, level);
      levels := levels + [LevelStats(level, stats, raw)];
    }
  }

  /** At every level `stats` and `raw` have the same keys in the same order. */
  lemma LevelKeys(rule: KeepRule, blocks: seq<StatBlock>)
    ensures JsObject.Keys(JsObject.MapValues(RawOf(rule, blocks), Normalise)) == JsObject.Keys(RawOf(rule, blocks))
  {
    JsObject.MapValuesKeys(RawOf(rule, blocks), Normalise);
  }

  /** The standalone scripts' `numberOrString`: `null`/`undefined` read as the empty
      text, which is trimmed, then converted as by `Normalise`. */
  function NumberOrString(text: Option<string>): (r: StatValue)
    ensures text.None? ==> r == Label([])
    ensures r == Normalise(Text.Trim(text.GetOr([])))
  {
    var t := Text.Trim(text.GetOr([]));
    var clean := Text.RemoveChar(t, ',');
    assert text.None? ==> t == [] && clean == [];
    if JsNumber.ParseFloatIsNaN(clean) then Label(t) else Number(clean)
  }

  /** Every value in `raw` is already trimmed. */
  lemma {:induction false} RawTrimmed(rule: KeepRule, blocks: seq<StatBlock>)
    ensures forall i :: 0 <= i < |RawOf(rule, blocks)| ==>
              Text.Trim(RawOf(rule, blocks)[i].1) == RawOf(rule, blocks)[i].1
    decreases |blocks|
  {
    if blocks != [] {
      var n := |blocks| - 1;
      RawTrimmed(rule, blocks[..n]);
      var r := RawOf(rule, blocks[..n]);
      match EntryOf(rule, blocks[n])
      case None =>
      case Some(e) =>
        Text.TrimIdempotent(Text.CollapseRuns(blocks[n].value.value));
        var r' := JsObject.Assign(r, e.0, e.1);
        forall i | 0 <= i < |r'| ensures Text.Trim(r'[i].1) == r'[i].1 {
          if i < |r| {
            assert r'[i] == (if r[i].0 == e.0 then (e.0, e.1) else r[i]);
          } else {
            assert r' == r + [(e.0, e.1)];
          }
        }
    }
  }

  /** The legacy script's conversion of one stored value. */
  function LegacyValue(v: string): (r: StatValue)
    ensures Text.Trim(v) == v ==> r == Normalise(v)
  {
    NumberOrString(Some(v))
  }

  /** Converting `raw` afterwards with `numberOrString`, as the legacy script does, gives
      the same `stats` as converting each value while reading. */
  lemma LegacyStatsAgree(rule: KeepRule, blocks: seq<StatBlock>)
    ensures JsObject.MapValues(RawOf(rule, blocks), LegacyValue) == JsObject.MapValues(RawOf(rule, blocks), Normalise)
  {
    RawTrimmed(rule, blocks);
  }

  /** `extractStats` / `extractStatsForCurrentLevel`: the blocks read into `raw` only. */
  method ReadRaw(rule: KeepRule, blocks: seq<StatBlock>) returns (raw: JsObject.Entries<string>)
    ensures raw == RawOf(rule, blocks)
  {
    raw := [];
    for j := 0 to |blocks|
      invariant raw == RawOf(rule, blocks[..j])
    {
      assert blocks[..j + 1][..j] == blocks[..j];
      var b := blocks[j];
      if b.name.None? || b.value.None? {
        continue;
      }
      var key := Text.Squish(b.name.value);
      var text := Text.Squish(b.value.value);
      if rule == WhenPresent || (key != [] && text != []) {
        raw := JsObject.Assign(raw, key, text);
      }
    }
    assert blocks[..|blocks|] == blocks;
  }

  /** `Object.fromEntries(Object.entries(raw).map(...))`: the converted values under the
      same keys, whichever of the two conversions the script uses. */
  method Convert(rule: KeepRule, blocks: seq<StatBlock>, raw: JsObject.Entries<string>, legacy: bool)
    returns (stats: JsObject.Entries<StatValue>)
    requires raw == RawOf(rule, blocks)
    ensures stats == JsObject.MapValues(raw, Normalise)
  {
    if legacy {
      LegacyStatsAgree(rule, blocks);
      stats := JsObject.MapValues(raw, LegacyValue);
    } else {
      stats := JsObject.MapValues(raw, Normalise);
    }
  }

  /** The standalone scripts' level loop: for each level 1 to 15, read `raw` from what the
      page shows, then convert every value (`numberOrString` in the legacy script). The
      result is the one the in-page loop builds. */
  method LevelLoop(rule: KeepRule, statsAt: nat -> seq<StatBlock>, legacy: bool) returns (levels: seq<LevelStats>)
    ensures |levels| == Levels
    ensures forall k :: 0 <= k < Levels ==>
              && levels[k].level == k + 1
              && levels[k].raw == RawOf(rule, statsAt(k + 1))
              && levels[k].stats == JsObject.MapValues(levels[k].raw, Normalise)
  {
    levels := [];
    for level := 1 to Levels + 1
      invariant |levels| == level - 1 && levels == LevelsUpTo(rule, statsAt, level - 1)
    {
      var raw := ReadRaw(rule, statsAt(level));
      var stats := Convert(rule, statsAt(level), raw, legacy);
      assert LevelStats(level, stats, raw) == LevelOf(rule, statsAt, level);
      levels := levels + [LevelStats(level, stats, raw)];
    }
  }

  // ---------------------------------------------------------------------------------
  // Icon holders

  datatype Img = Img(src: Option<string>, keystone: bool)

  /** One `.ico-holder`: its `img`, the text of its `.name`, whether it has class
      `enchant` and whether it holds an `.enchant` element. */
  datatype Holder = Holder(img: Option<Img>, name: Option<string>, enchantClass: bool, enchantInside: bool)

  /** A holder becomes an entry only with both an image and a name. */
  predicate Complete(h: Holder) {
    h.img.Some? && h.name.Some?
  }

  datatype BuildItem = BuildItem(name: string, image: Option<string>, isEnchant: bool)
  datatype Icon = Icon(name: string, image: Option<string>)
  datatype RuneIcon = RuneIcon(name: string, image: Option<string>, isKeystone: bool)

  function BuildItemOf(h: Holder): BuildItem {
    BuildItem(Text.Trim(h.name.GetOr([])), if h.img.Some? then h.img.value.src else None,
              h.enchantClass || h.enchantInside)
  }

  function IconOf(h: Holder): Icon {
    Icon(Text.Trim(h.name.GetOr([])), if h.img.Some? then h.img.value.src else None)
  }

  function RuneIconOf(h: Holder): RuneIcon {
    RuneIcon(Text.Trim(h.name.GetOr([])), if h.img.Some? then h.img.value.src else None,
             h.img.Some? && h.img.value.keystone)
  }

  /** `holders.map(h => complete ? f(h) : null).filter(Boolean)`. */
  function KeepComplete<T>(hs: seq<Holder>, f: Holder -> T): (r: seq<T>)
    ensures |r| <= |hs|
    decreases |hs|
  {
    if hs == [] then []
    else if Complete(hs[0]) then [f(hs[0])] + KeepComplete(hs[1..], f)
    else KeepComplete(hs[1..], f)
  }

  /** The entries of consecutive runs of holders follow each other: document order is
      kept and each holder contributes on its own. */
  lemma {:induction false} KeepCompleteAppend<T>(a: seq<Holder>, b: seq<Holder>, f: Holder -> T)
    ensures KeepComplete(a + b, f) == KeepComplete(a, f) + KeepComplete(b, f)
    decreases |a|
  {
    if a == [] {
      assert a + b == b;
    } else {
      assert (a + b)[0] == a[0];
      assert (a + b)[1..] == a[1..] + b;
      KeepCompleteAppend(a[1..], b, f);
      if Complete(a[0]) {
        assert [f(a[0])] + (KeepComplete(a[1..], f) + KeepComplete(b, f))
            == ([f(a[0])] + KeepComplete(a[1..], f)) + KeepComplete(b, f);
      }
    }
  }

  /** One entry per holder when every holder is complete; none when no holder is. */
  lemma {:induction false} KeepCompleteBounds<T>(hs: seq<Holder>, f: Holder -> T)
    ensures (forall i :: 0 <= i < |hs| ==> Complete(hs[i])) ==>
              |KeepComplete(hs, f)| == |hs| && forall i :: 0 <= i < |hs| ==> KeepComplete(hs, f)[i] == f(hs[i])
    ensures (forall i :: 0 <= i < |hs| ==> !Complete(hs[i])) ==> KeepComplete(hs, f) == []
    decreases |hs|
  {
    if hs != [] {
      KeepCompleteBounds(hs[1..], f);
      assert forall i :: 1 <= i < |hs| ==> hs[i] == hs[1..][i - 1];
    }
  }

  /** Every entry comes from a complete holder. */
  lemma {:induction false} KeepCompleteOrigin<T>(hs: seq<Holder>, f: Holder -> T)
    ensures forall x :: x in KeepComplete(hs, f) ==> exists i :: 0 <= i < |hs| && Complete(hs[i]) && x == f(hs[i])
    decreases |hs|
  {
    if hs != [] {
      KeepCompleteOrigin(hs[1..], f);
      assert forall i :: 1 <= i < |hs| ==> hs[i] == hs[1..][i - 1];
    }
  }

  /** An item is an enchant exactly when the holder has the class or holds an element
      with it. */
  lemma EnchantRule(h: Holder)
    ensures BuildItemOf(h).isEnchant <==> h.enchantClass || h.enchantInside
    ensures RuneIconOf(h).isKeystone <==> h.img.Some? && h.img.value.keystone
  {
  }

  // ---------------------------------------------------------------------------------
  // Builds, runes and spells

  /** A `.wf-champion__data__items[data-guide-id]` block. */
  datatype BuildBlock = BuildBlock(guideId: Option<string>, inactive: bool, starting: seq<Holder>,
                                   core: seq<Holder>, boots: seq<Holder>, final: seq<Holder>)

  datatype Build = Build(guideId: Option<string>, isActive: bool, starting: seq<BuildItem>,
                         core: seq<BuildItem>, boots: seq<BuildItem>, final: seq<BuildItem>)

  function BuildOf(b: BuildBlock): (r: Build)
    ensures r.isActive <==> !b.inactive
    ensures r.guideId == b.guideId
    ensures r.starting == KeepComplete(b.starting, BuildItemOf) && r.core == KeepComplete(b.core, BuildItemOf)
    ensures r.boots == KeepComplete(b.boots, BuildItemOf) && r.final == KeepComplete(b.final, BuildItemOf)
  {
    Build(b.guideId, !b.inactive, KeepComplete(b.starting, BuildItemOf), KeepComplete(b.core, BuildItemOf),
          KeepComplete(b.boots, BuildItemOf), KeepComplete(b.final, BuildItemOf))
  }

  /** A `.wf-champion__data__spells[data-guide-id]` block. */
  datatype SpellBlock = SpellBlock(guideId: Option<string>, inactive: bool, spells: seq<Holder>, runes: seq<Holder>)

  datatype RunesAndSpells = RunesAndSpells(guideId: Option<string>, isActive: bool,
                                           summonerSpells: seq<Icon>, runes: seq<RuneIcon>)

  function RunesAndSpellsOf(b: SpellBlock): (r: RunesAndSpells)
    ensures r.isActive <==> !b.inactive
    ensures r.guideId == b.guideId
    ensures r.summonerSpells == KeepComplete(b.spells, IconOf) && r.runes == KeepComplete(b.runes, RuneIconOf)
  {
    RunesAndSpells(b.guideId, !b.inactive, KeepComplete(b.spells, IconOf), KeepComplete(b.runes, RuneIconOf))
  }

  // ---------------------------------------------------------------------------------
  // Situational items

  /** A `.section.situation`: the text of its `.situation[name="situation"]` element and
      its holders. */
  datatype Section = Section(name: Option<string>, holders: seq<Holder>)

  datatype Situation = Situation(situation: string, items: seq<Icon>)

  /** The situations of a block: a section counts only with a label and at least one
      complete holder. */
  function SituationsOf(sections: seq<Section>): (r: seq<Situation>)
    ensures |r| <= |sections|
    ensures forall k :: 0 <= k < |r| ==> r[k].items != []
    decreases |sections|
  {
    if sections == [] then []
    else
      var r := SituationsOf(sections[..|sections| - 1]);
      var s := sections[|sections| - 1];
      var items := KeepComplete(s.holders, IconOf);
      if s.name.Some? && items != [] then r + [Situation(Text.Trim(s.name.value), items)] else r
  }

  /** The situations of consecutive runs of sections follow each other. */
  lemma {:induction false} SituationsAppend(a: seq<Section>, b: seq<Section>)
    ensures SituationsOf(a + b) == SituationsOf(a) + SituationsOf(b)
    decreases |b|
  {
    if b == [] {
      assert a + b == a;
    } else {
      var n := |b| - 1;
      SituationsAppend(a, b[..n]);
      assert (a + b)[..|a + b| - 1] == a + b[..n];
      assert (a + b)[|a + b| - 1] == b[n];
    }
  }

  lemma SituationOfOne(s: Section)
    ensures SituationsOf([s]) ==
      if s.name.Some? && KeepComplete(s.holders, IconOf) != [] then
        [Situation(Text.Trim(s.name.value), KeepComplete(s.holders, IconOf))]
      else []
  {
    assert [s][..0] == [];
  }

  /** The `forEach` over the sections of one block. */
  method CollectSituations(sections: seq<Section>) returns (situations: seq<Situation>)
    ensures situations == SituationsOf(sections)
  {
    situations := [];
    for j := 0 to |sections|
      invariant situations == SituationsOf(sections[..j])
    {
      assert sections[..j + 1][..j] == sections[..j];
      var s := sections[j];
      if s.name.None? {
        continue;
      }
      var items := KeepComplete(s.holders, IconOf);
      if |items| > 0 {
        situations := situations + [Situation(Text.Trim(s.name.value), items)];
      }
    }
    assert sections[..|sections|] == sections;
  }

  /** A `.wf-champion__data__situational[data-guide-id]` block. */
  datatype SituationalBlock = SituationalBlock(guideId: Option<string>, inactive: bool, sections: seq<Section>)

  datatype Situational = Situational(guideId: Option<string>, isActive: bool, situations: seq<Situation>)

  // ---------------------------------------------------------------------------------
  // Skill orders

  /** A skill row that is not the passive one: the text of its first `span` and the
      `level` attribute of each `li.lit`. */
  datatype Row = Row(span: Option<string>, lit: seq<Option<string>>)

  datatype SkillAbility = SkillAbility(name: string, levels: seq<int>)

  /** `level ? parseInt(level) : null`, then `filter(Boolean)`: a level counts when the
      attribute is present and not empty and reads as a number other than 0. */
  function LitLevels(lit: seq<Option<string>>): (r: seq<int>)
    ensures |r| <= |lit|
    ensures forall k :: 0 <= k < |r| ==> r[k] != 0
    decreases |lit|
  {
    if lit == [] then []
    else
      var rest := LitLevels(lit[1..]);
      var a := lit[0];
      if a.Some? && a.value != [] then
        match JsNumber.ParseInt(a.value)
        case Some(v) => if v != 0 then [v] + rest else rest
        case None => rest
      else rest
  }

  /** A level written as a positive decimal number is kept with its value, in order. */
  lemma LitLevelsOfNumbers(n: nat, lit: seq<Option<string>>)
    requires n > 0
    ensures LitLevels([Some(JsNumber.IntToString(n))] + lit) == [n] + LitLevels(lit)
  {
    var l := [Some(JsNumber.IntToString(n))] + lit;
    JsNumber.ParseIntOfString(n);
    assert l[1..] == lit;
  }

  /** One `level` attribute adds its value when it is present, non-empty and reads as a
      number other than 0; an absent or empty one, one that is NaN or one that reads as 0
      adds nothing. */
  lemma LitLevelsOne(a: Option<string>, lit: seq<Option<string>>)
    ensures var v := if a.Some? && a.value != [] then JsNumber.ParseInt(a.value) else None;
            LitLevels([a] + lit) == (if v.Some? && v.value != 0 then [v.value] else []) + LitLevels(lit)
  {
    assert ([a] + lit)[1..] == lit;
  }

  /** The rows that name a skill, with their levels. */
  function SkillAbilitiesOf(rows: seq<Row>): (r: seq<SkillAbility>)
    ensures |r| <= |rows|
    ensures forall k :: 0 <= k < |r| ==> r[k].name != []
    decreases |rows|
  {
    if rows == [] then []
    else
      var r := SkillAbilitiesOf(rows[..|rows| - 1]);
      var row := rows[|rows| - 1];
      var name := if row.span.Some? then Text.Trim(row.span.value) else [];
      if name != [] then r + [SkillAbility(name, LitLevels(row.lit))] else r
  }

  /** Skill rows are read in document order: the abilities of consecutive runs of rows
      follow each other. */
  lemma {:induction false} SkillAbilitiesAppend(a: seq<Row>, b: seq<Row>)
    ensures SkillAbilitiesOf(a + b) == SkillAbilitiesOf(a) + SkillAbilitiesOf(b)
    decreases |b|
  {
    if b == [] {
      assert a + b == a;
    } else {
      var n := |b| - 1;
      SkillAbilitiesAppend(a, b[..n]);
      assert (a + b)[..|a + b| - 1] == a + b[..n];
      assert (a + b)[|a + b| - 1] == b[n];
    }
  }

  /** A row whose first span has non-blank text is kept with that trimmed text and its
      lit levels; a row without one is skipped. */
  lemma SkillAbilityOfOne(row: Row)
    ensures SkillAbilitiesOf([row]) ==
      if row.span.Some? && Text.Trim(row.span.value) != [] then
        [SkillAbility(Text.Trim(row.span.value), LitLevels(row.lit))]
      else []
  {
    assert [row][..0] == [];
  }

  /** The `forEach` over the rows of one block. */
  method CollectSkillAbilities(rows: seq<Row>) returns (abilities: seq<SkillAbility>)
    ensures abilities == SkillAbilitiesOf(rows)
  {
    abilities := [];
    for j := 0 to |rows|
      invariant abilities == SkillAbilitiesOf(rows[..j])
    {
      assert rows[..j + 1][..j] == rows[..j];
      var row := rows[j];
      var abilityName := if row.span.Some? then Text.Trim(row.span.value) else [];
      if abilityName == [] {
        continue;
      }
      abilities := abilities + [SkillAbility(abilityName, LitLevels(row.lit))];
    }
    assert rows[..|rows|] == rows;
  }

  /** An image of the quick order: its `src` and `alt`. */
  datatype QuickImg = QuickImg(image: Option<string>, alt: Option<string>)

  /** A `.wf-champion__data__skills[data-guide-id]` block. */
  datatype SkillBlock = SkillBlock(guideId: Option<string>, inactive: bool, rows: seq<Row>, quick: seq<QuickImg>)

  datatype SkillOrder = SkillOrder(guideId: Option<string>, isActive: bool, abilities: seq<SkillAbility>,
                                   quickOrder: seq<QuickImg>)

  // ---------------------------------------------------------------------------------
  // The whole page

  datatype Page = Page(abilities: seq<AbilityBlock>, builds: seq<BuildBlock>, spells: seq<SpellBlock>,
                       situational: seq<SituationalBlock>, skills: seq<SkillBlock>)

  datatype ChampionData = ChampionData(abilities: seq<Ability>, statsByLevel: seq<LevelStats>,
                                       builds: seq<Build>, runesAndSpells: seq<RunesAndSpells>,
                                       situationalItems: seq<Situational>, skillOrders: seq<SkillOrder>)

  /** `extractData` / `extractAllData` / `fastExtractAll`: every section in document
      order, one entry per block. */
  method ExtractData(page: Page, rule: KeepRule, statsAt: nat -> seq<StatBlock>) returns (data: ChampionData)
    ensures data.abilities == AbilitiesOf(page.abilities)
    ensures |data.statsByLevel| == Levels
    ensures forall k :: 0 <= k < Levels ==>
              && data.statsByLevel[k].level == k + 1
              && data.statsByLevel[k].raw == RawOf(rule, statsAt(k + 1))
              && data.statsByLevel[k].stats == JsObject.MapValues(data.statsByLevel[k].raw, Normalise)
    ensures |data.builds| == |page.builds| &&
            forall i :: 0 <= i < |page.builds| ==> data.builds[i] == BuildOf(page.builds[i])
    ensures |data.runesAndSpells| == |page.spells| &&
            forall i :: 0 <= i < |page.spells| ==> data.runesAndSpells[i] == RunesAndSpellsOf(page.spells[i])
    ensures |data.situationalItems| == |page.situational| &&
            forall i :: 0 <= i < |page.situational| ==>
              var b := page.situational[i];
              data.situationalItems[i] == Situational(b.guideId, !b.inactive, SituationsOf(b.sections))
    ensures |data.skillOrders| == |page.skills| &&
            forall i :: 0 <= i < |page.skills| ==>
              var b := page.skills[i];
              data.skillOrders[i] == SkillOrder(b.guideId, !b.inactive, SkillAbilitiesOf(b.rows), b.quick)
  {
    var abilities := AbilitiesOf(page.abilities);
    var levels := StatsByLevel(rule, statsAt);
    var builds := seq(|page.builds|, i requires 0 <= i < |page.builds| => BuildOf(page.builds[i]));
    var runes := seq(|page.spells|, i requires 0 <= i < |page.spells| => RunesAndSpellsOf(page.spells[i]));
    var situational: seq<Situational> := [];
    for i := 0 to |page.situational|
      invariant |situational| == i
      invariant forall k :: 0 <= k < i ==>
                  var b := page.situational[k];
                  situational[k] == Situational(b.guideId, !b.inactive, SituationsOf(b.sections))
    {
      var b := page.situational[i];
      var situations := CollectSituations(b.sections);
      situational := situational + [Situational(b.guideId, !b.inactive, situations)];
    }
    var skills: seq<SkillOrder> := [];
    for i := 0 to |page.skills|
      invariant |skills| == i
      invariant forall k :: 0 <= k < i ==>
                  var b := page.skills[k];
                  skills[k] == SkillOrder(b.guideId, !b.inactive, SkillAbilitiesOf(b.rows), b.quick)
    {
      var b := page.skills[i];
      var abilityRows := CollectSkillAbilities(b.rows);
      skills := skills + [SkillOrder(b.guideId, !b.inactive, abilityRows, b.quick)];
    }
    data := ChampionData(abilities, levels, builds, runes, situational, skills);
  }
}
