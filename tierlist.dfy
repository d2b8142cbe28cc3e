/** The lolmqq tier-list processor: the raw API answer, keyed by role index and then by
    division index, is rekeyed through translation tables into role names and division
    labels, and every champion is reshaped into a record with its translated name and
    tier label. The translation tables are a parameter. */
module TierList {
  import opened Wrappers
  import Text
  import JsNumber
  import opened JsObject

  /** JavaScript truthiness of a value. */
  predicate Truthy(v: Value) {
    match v
    case Undefined => false
    case Null => false
    case Bool(b) => b
    case Num(n) => n != 0
    case Str(s) => s != []
    case StrList(_) => true
    case Other => true
  }

  /** `v.toString()`, used as a property key. */
  function KeyOf(v: Value): string {
    match v
    case Undefined => "undefined"
    case Null => "null"
    case Bool(b) => if b then "true" else "false"
    case Num(n) => JsNumber.IntToString(n)
    case Str(s) => s
    case StrList(items) => Text.Join(items, ',')
    case Other => "[object Object]"
  }

  /** An entry of `dans`. */
  datatype DanInfo = DanInfo(labelPtbr: string)

  /** The contents of `translations.json`. */
  datatype Translations = Translations(heroes: Entries<string>, tiers: Entries<string>,
                                       routes: Entries<string>, dans: Entries<DanInfo>,
                                       source: Value, language: Value)

  /** A champion as the API sends it (its four rates are not modelled). */
  datatype RawChampion = RawChampion(heroId: Value, rankCount: Value, tier: Value)

  /** A champion as written out. */
  datatype Hero = Hero(heroId: Value, heroName: string, rankCount: Value, tier: Option<string>)

  /** `getTierLabel`: nothing for a falsy tier, otherwise the non-empty translation of
      its text, if there is one. */
  function TierLabel(tr: Translations, tier: Value): (r: Option<string>)
    ensures !Truthy(tier) ==> r.None?
    ensures r.Some? ==> r.value != [] && Get(tr.tiers, KeyOf(tier)) == r
    ensures Truthy(tier) && Get(tr.tiers, KeyOf(tier)).Some? && Get(tr.tiers, KeyOf(tier)).value != [] ==> r.Some?
  {
    if !Truthy(tier) then None
    else match Get(tr.tiers, KeyOf(tier))
      case Some(t) => if t != [] then Some(t) else None
      case None => None
  }

  /** The text `heroId?.toString()` gives, as a key and inside the fallback name. */
  function HeroKey(heroId: Value): string {
    if heroId.Undefined? || heroId.Null? then "undefined" else KeyOf(heroId)
  }

  /** `processChampion` without the rates: the translated name, or `Hero_<id>` when there
      is no non-empty translation; `rankCount` with 0 for a falsy count. */
  function ProcessChampion(tr: Translations, c: RawChampion): (h: Hero)
    ensures h.heroId == c.heroId
    ensures h.heroName != []
    ensures Get(tr.heroes, HeroKey(c.heroId)).Some? && Get(tr.heroes, HeroKey(c.heroId)).value != [] ==>
              h.heroName == Get(tr.heroes, HeroKey(c.heroId)).value
    ensures !(Get(tr.heroes, HeroKey(c.heroId)).Some? && Get(tr.heroes, HeroKey(c.heroId)).value != []) ==>
              h.heroName == "Hero_" + HeroKey(c.heroId)
    ensures Truthy(c.rankCount) ==> h.rankCount == c.rankCount
    ensures !Truthy(c.rankCount) ==> h.rankCount == Num(0)
    ensures h.tier == TierLabel(tr, c.tier)
  {
    var key := HeroKey(c.heroId);
    var name := match Get(tr.heroes, key)
      case Some(n) => if n != [] then n else "Hero_" + key
      case None => "Hero_" + key;
    Hero(c.heroId, name, if Truthy(c.rankCount) then c.rankCount else Num(0), TierLabel(tr, c.tier))
  }

  /** What the API sends for one division: an array of champions, or anything else. */
  datatype Division = Champions(champions: seq<RawChampion>) | NotArray

  /** The champions of a division, one record per raw champion in the same order; a
      division that is not an array gives none. */
  function HeroesOf(tr: Translations, d: Division): (hs: seq<Hero>)
    ensures d.NotArray? ==> hs == []
    ensures d.Champions? ==> (|hs| == |d.champions| &&
              forall i :: 0 <= i < |hs| ==> hs[i] == ProcessChampion(tr, d.champions[i]))
  {
    match d
    case NotArray => []
    case Champions(cs) => seq(|cs|, i requires 0 <= i < |cs| => ProcessChampion(tr, cs[i]))
  }

  /** The role name of a role index: `routes[String(parseInt(index) + 1)]`, when that is
      non-empty (`NaN` when the index does not read as a number). */
  function RoleName(tr: Translations, roleIndex: string): (r: Option<string>)
    ensures r.Some? ==> r.value != []
  {
    var key := match JsNumber.ParseInt(roleIndex)
      case Some(n) => JsNumber.IntToString(n + 1)
      case None => "NaN";
    match Get(tr.routes, key)
    case Some(name) => if name != [] then Some(name) else None
    case None => None
  }

  /** Role index `n` is named by the `routes` entry for `n + 1`, when that is non-empty. */
  lemma RoleNameOfIndex(tr: Translations, n: nat)
    ensures var r := RoleName(tr, JsNumber.IntToString(n));
            var e := Get(tr.routes, JsNumber.IntToString(n + 1));
            (r.Some? <==> e.Some? && e.value != []) && (r.Some? ==> r == e)
  {
    JsNumber.ParseIntOfString(n);
  }

  /** The division label of a division index, when `dans` has an entry for it. */
  function DanLabel(tr: Translations, danIndex: string): (r: Option<string>)
    ensures r.Some? <==> HasKey(tr.dans, danIndex)
  {
    match Get(tr.dans, danIndex)
    case Some(info) => Some(info.labelPtbr)
    case None => None
  }

  /** The object a `for…in` loop builds by assigning `f` of each value under the
      translation of its key, skipping keys without one: a later entry whose key
      translates to the same name replaces the earlier value in place. */
  function Translated<A, B>(tr: Translations, es: Entries<A>, key: (Translations, string) -> Option<string>,
                            f: (Translations, A) -> B): (r: Entries<B>)
    ensures DistinctKeys(r)
    decreases |es|
  {
    if es == [] then []
    else
      var r := Translated(tr, es[..|es| - 1], key, f);
      var e := es[|es| - 1];
      match key(tr, e.0)
      case None => r
      case Some(k) => AssignDistinct(r, k, f(tr, e.1)); Assign(r, k, f(tr, e.1))
  }

  /** Entry `i` is translated to `k`. */
  predicate NamedAt<A>(tr: Translations, es: Entries<A>, key: (Translations, string) -> Option<string>, i: int, k: string) {
    0 <= i < |es| && key(tr, es[i].0) == Some(k)
  }

  /** A name is a key of the result exactly when some entry's key translates to it: the
      untranslated entries are skipped. */
  lemma {:induction false} TranslatedHasKey<A, B>(tr: Translations, es: Entries<A>, key: (Translations, string) -> Option<string>,
                                                  f: (Translations, A) -> B, k: string)
    ensures HasKey(Translated(tr, es, key, f), k) <==> exists i :: NamedAt(tr, es, key, i, k)
    decreases |es|
  {
    if es != [] {
      var n := |es| - 1;
      var init := es[..n];
      TranslatedHasKey(tr, init, key, f, k);
      var r := Translated(tr, init, key, f);
      if NamedAt(tr, es, key, n, k) {
        AssignGetSame(r, k, f(tr, es[n].1));
      } else {
        assert (exists i :: NamedAt(tr, es, key, i, k)) <==> exists i :: NamedAt(tr, init, key, i, k) by {
          forall i | NamedAt(tr, es, key, i, k) ensures NamedAt(tr, init, key, i, k) {
            assert i < n && init[i] == es[i];
          }
          forall i | NamedAt(tr, init, key, i, k) ensures NamedAt(tr, es, key, i, k) {
            assert init[i] == es[i];
          }
        }
        match key(tr, es[n].0)
        case None =>
        case Some(k') =>
          AssignGetOther(r, k', f(tr, es[n].1), k);
      }
    }
  }

  /** Under a name, the result holds `f` of the last entry translated to it. */
  lemma {:induction false} TranslatedLast<A, B>(tr: Translations, es: Entries<A>, key: (Translations, string) -> Option<string>,
                                                f: (Translations, A) -> B, k: string, i: nat)
    requires NamedAt(tr, es, key, i, k)
    requires forall j :: i < j < |es| ==> !NamedAt(tr, es, key, j, k)
    ensures Get(Translated(tr, es, key, f), k) == Some(f(tr, es[i].1))
    decreases |es|
  {
    var n := |es| - 1;
    var init := es[..n];
    var r := Translated(tr, init, key, f);
    if i == n {
      AssignGetSame(r, k, f(tr, es[n].1));
    } else {
      assert init[i] == es[i];
      forall j | i < j < n ensures !NamedAt(tr, init, key, j, k) {
        assert init[j] == es[j];
        assert !NamedAt(tr, es, key, j, k);
      }
      TranslatedLast(tr, init, key, f, k, i);
      assert !NamedAt(tr, es, key, n, k);
      match key(tr, es[n].0)
      case None =>
      case Some(k') =>
        AssignGetOther(r, k', f(tr, es[n].1), k);
    }
  }

  /** The result weighs no more than its entries, when each value weighs no more than
      the entry it comes from. */
  lemma {:induction false} TranslatedWeight<A, B>(tr: Translations, es: Entries<A>, key: (Translations, string) -> Option<string>,
                                                  f: (Translations, A) -> B, w: B -> nat, g: A -> nat)
    requires forall x :: w(f(tr, x)) <= g(x)
    ensures Weight(Translated(tr, es, key, f), w) <= Weight(es, g)
    decreases |es|
  {
    if es != [] {
      var n := |es| - 1;
      var init := es[..n];
      TranslatedWeight(tr, init, key, f, w, g);
      JsObject.WeightLast(es, g);
      var r := Translated(tr, init, key, f);
      match key(tr, es[n].0)
      case None =>
      case Some(k) =>
        AssignWeight(r, k, f(tr, es[n].1), w);
    }
  }

  /** Every entry translated, to pairwise different names: nothing is skipped or replaced. */
  predicate Injective<A>(tr: Translations, es: Entries<A>, key: (Translations, string) -> Option<string>) {
    (forall i :: 0 <= i < |es| ==> key(tr, es[i].0).Some?) &&
    (forall i, j :: 0 <= i < j < |es| ==> key(tr, es[i].0) != key(tr, es[j].0))
  }

  /** With an injective translation the result weighs exactly what its entries do. */
  lemma {:induction false} TranslatedWeightExact<A, B>(tr: Translations, es: Entries<A>, key: (Translations, string) -> Option<string>,
                                                       f: (Translations, A) -> B, w: B -> nat, g: A -> nat)
    requires Injective(tr, es, key)
    requires forall i :: 0 <= i < |es| ==> w(f(tr, es[i].1)) == g(es[i].1)
    ensures Weight(Translated(tr, es, key, f), w) == Weight(es, g)
    decreases |es|
  {
    if es != [] {
      var n := |es| - 1;
      var init := es[..n];
      assert forall i :: 0 <= i < n ==> init[i] == es[i];
      TranslatedWeightExact(tr, init, key, f, w, g);
      JsObject.WeightLast(es, g);
      var r := Translated(tr, init, key, f);
      var k := key(tr, es[n].0).value;
      TranslatedHasKey(tr, init, key, f, k);
      assert !HasKey(r, k) by {
        forall i | 0 <= i < n ensures !NamedAt(tr, init, key, i, k) {
          assert key(tr, es[i].0) != key(tr, es[n].0);
        }
      }
      AssignWeight(r, k, f(tr, es[n].1), w);
    }
  }

  /** The divisions of one role, keyed by label. */
  function DivisionsOf(tr: Translations, role: Entries<Division>): Entries<seq<Hero>> {
    Translated(tr, role, DanLabel, HeroesOf)
  }

  /** The output `data`: the roles keyed by name. */
  function DataOf(tr: Translations, roles: Entries<Entries<Division>>): Entries<Entries<seq<Hero>>> {
    Translated(tr, roles, RoleName, DivisionsOf)
  }

  /** What the API answered: `result` and `data` (a missing `data` is the empty object). */
  datatype RawData = RawData(result: Value, data: Entries<Entries<Division>>)

  datatype Processed = Processed(result: int, source: Value, language: Value, data: Entries<Entries<seq<Hero>>>)

  /** The inner `for…in` loop over the divisions of one role. */
  method ProcessRole(tr: Translations, role: Entries<Division>) returns (divisions: Entries<seq<Hero>>)
    ensures divisions == DivisionsOf(tr, role)
  {
    divisions := [];
    for j := 0 to |role|
      invariant divisions == Translated(tr, role[..j], DanLabel, HeroesOf)
    {
      assert role[..j + 1][..j] == role[..j];
      var (danIndex, danData) := role[j];
      var danInfo := Get(tr.dans, danIndex);
      if danInfo.None? {
        continue;
      }
      var danLabel := danInfo.value.labelPtbr;
      if danData.Champions? {
        divisions := Assign(divisions, danLabel, HeroesOf(tr, danData));
      } else {
        divisions := Assign(divisions, danLabel, []);
      }
    }
    assert role[..|role|] == role;
  }

  /** `processRawData`: a falsy input or a `result` other than 0 throws (`None`);
      otherwise the roles are rekeyed in order. */
  method ProcessRawData(raw: Option<RawData>, tr: Translations) returns (out: Option<Processed>)
    ensures out.None? <==> raw.None? || raw.value.result != Num(0)
    ensures out.Some? ==> out.value.result == 0 && out.value.source == tr.source &&
                          out.value.language == tr.language && out.value.data == DataOf(tr, raw.value.data)
  {
    if raw.None? || raw.value.result != Num(0) {
      return None;
    }
    var roles := raw.value.data;
    var data: Entries<Entries<seq<Hero>>> := [];
    for i := 0 to |roles|
      invariant data == Translated(tr, roles[..i], RoleName, DivisionsOf)
    {
      assert roles[..i + 1][..i] == roles[..i];
      var (roleIndex, roleData) := roles[i];
      var roleName := RoleName(tr, roleIndex);
      if roleName.None? {
        continue;
      }
      var divisions := ProcessRole(tr, roleData);
      data := Assign(data, roleName.value, divisions);
    }
    assert roles[..|roles|] == roles;
    return Some(Processed(0, tr.source, tr.language, data));
  }

  // ---------------------------------------------------------------------------------
  // Counting

  function HeroCount(hs: seq<Hero>): nat {
    |hs|
  }

  /** The champions of one role. */
  function RoleTotal(divisions: Entries<seq<Hero>>): nat {
    Weight(divisions, HeroCount)
  }

  /** The champions of all roles. */
  function Total(data: Entries<Entries<seq<Hero>>>): nat {
    Weight(data, RoleTotal)
  }

  /** The champions the API sent in one division, and in one role. */
  function DivisionSize(d: Division): nat {
    if d.Champions? then |d.champions| else 0
  }

  function RawRoleSize(role: Entries<Division>): nat {
    Weight(role, DivisionSize)
  }

  /** The inner loop of `getProcessingStats`. */
  method CountRole(divisions: Entries<seq<Hero>>) returns (total: nat)
    ensures total == RoleTotal(divisions)
  {
    total := 0;
    for j := 0 to |divisions|
      invariant total == Weight(divisions[..j], HeroCount)
    {
      assert divisions[..j + 1] == divisions[..j] + [(divisions[j].0, divisions[j].1)];
      WeightSnoc(divisions[..j], divisions[j].0, divisions[j].1, HeroCount);
      total := total + |divisions[j].1|;
    }
    assert divisions[..|divisions|] == divisions;
  }

  /** `getProcessingStats`: the number of roles, the number of divisions of the first
      role, and the number of champions over all roles and divisions; all zero when there
      is no role. The loops visit every key of an object, and a JavaScript object never
      repeats a key, so each visit reads that key's own entry. */
  method GetProcessingStats(data: Entries<Entries<seq<Hero>>>) returns (roles: nat, divisionsPerRole: nat, totalChampions: nat)
    ensures roles == |Keys(data)|
    ensures data == [] ==> divisionsPerRole == 0 && totalChampions == 0
    ensures data != [] ==> divisionsPerRole == |Keys(data[0].1)|
    ensures totalChampions == Total(data)
  {
    roles := |Keys(data)|;
    totalChampions := 0;
    divisionsPerRole := 0;
    if roles > 0 {
      divisionsPerRole := |Keys(data[0].1)|;
      for i := 0 to |data|
        invariant totalChampions == Weight(data[..i], RoleTotal)
      {
        assert data[..i + 1] == data[..i] + [(data[i].0, data[i].1)];
        WeightSnoc(data[..i], data[i].0, data[i].1, RoleTotal);
        var n := CountRole(data[i].1);
        totalChampions := totalChampions + n;
      }
      assert data[..|data|] == data;
    }
  }

  /** The output never counts more champions than the API sent: skipped roles and
      divisions add none and a replaced entry drops the earlier one. */
  lemma TotalBound(tr: Translations, roles: Entries<Entries<Division>>)
    ensures Total(DataOf(tr, roles)) <= Weight(roles, RawRoleSize)
  {
    forall role: Entries<Division> ensures RoleTotal(DivisionsOf(tr, role)) <= RawRoleSize(role) {
      TranslatedWeight(tr, role, DanLabel, HeroesOf, HeroCount, DivisionSize);
    }
    TranslatedWeight(tr, roles, RoleName, DivisionsOf, RoleTotal, RawRoleSize);
  }

  /** When every role and division index translates, to pairwise different names, the
      output counts exactly the champions of the array divisions the API sent. */
  lemma TotalExact(tr: Translations, roles: Entries<Entries<Division>>)
    requires Injective(tr, roles, RoleName)
    requires forall i :: 0 <= i < |roles| ==> Injective(tr, roles[i].1, DanLabel)
    ensures Total(DataOf(tr, roles)) == Weight(roles, RawRoleSize)
  {
    forall i | 0 <= i < |roles| ensures RoleTotal(DivisionsOf(tr, roles[i].1)) == RawRoleSize(roles[i].1) {
      TranslatedWeightExact(tr, roles[i].1, DanLabel, HeroesOf, HeroCount, DivisionSize);
    }
    TranslatedWeightExact(tr, roles, RoleName, DivisionsOf, RoleTotal, RawRoleSize);
  }

  /** A role name is in the output exactly when some role index translates to it, and
      it holds the divisions of the last such role; likewise for division labels. */
  lemma DataLookup(tr: Translations, roles: Entries<Entries<Division>>, name: string, i: nat)
    requires NamedAt(tr, roles, RoleName, i, name)
    requires forall j :: i < j < |roles| ==> !NamedAt(tr, roles, RoleName, j, name)
    ensures HasKey(DataOf(tr, roles), name)
    ensures Get(DataOf(tr, roles), name) == Some(DivisionsOf(tr, roles[i].1))
  {
    TranslatedLast(tr, roles, RoleName, DivisionsOf, name, i);
  }

  /** A name no role index translates to is not in the output. */
  lemma DataSkips(tr: Translations, roles: Entries<Entries<Division>>, name: string)
    requires forall i :: 0 <= i < |roles| ==> RoleName(tr, roles[i].0) != Some(name)
    ensures !HasKey(DataOf(tr, roles), name)
  {
    TranslatedHasKey(tr, roles, RoleName, DivisionsOf, name);
  }

  /** A label no division index translates to is not among a role's divisions. */
  lemma DivisionSkips(tr: Translations, role: Entries<Division>, dan: string)
    requires forall i :: 0 <= i < |role| ==> DanLabel(tr, role[i].0) != Some(dan)
    ensures !HasKey(DivisionsOf(tr, role), dan)
  {
    TranslatedHasKey(tr, role, DanLabel, HeroesOf, dan);
  }

  /** Under a label, a role holds the champions of the last division translated to it. */
  lemma DivisionLookup(tr: Translations, role: Entries<Division>, dan: string, i: nat)
    requires NamedAt(tr, role, DanLabel, i, dan)
    requires forall j :: i < j < |role| ==> !NamedAt(tr, role, DanLabel, j, dan)
    ensures Get(DivisionsOf(tr, role), dan) == Some(HeroesOf(tr, role[i].1))
  {
    TranslatedLast(tr, role, DanLabel, HeroesOf, dan, i);
  }
}
