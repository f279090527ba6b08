/**
 Strategy selection (agent/strategy.py) over the template banks (knowledge_base.py):
 which strategy a group state gets, and which template of which experimental
 condition says it.
 */
module Strategy {
  import opened StateNames
  import opened Tables
  import opened Templates

  /** normalize_condition: anything but "control" is the experiment. */
  function ConditionOf(name: string): Condition { if name == "control" then Control else Experiment }

  /** _entry_by_template_ids: the entries of those ids that the map knows. */
  function EntriesByIds(m: map<string, Entry>, ids: seq<string>): (entries: seq<Entry>)
    ensures forall e :: e in entries <==> exists i :: 0 <= i < |ids| && ids[i] in m && m[ids[i]] == e
  {
    if ids == [] then [] else
      var init, last := ids[..|ids| - 1], ids[|ids| - 1];
      assert forall i :: 0 <= i < |init| ==> init[i] == ids[i];
      EntriesByIds(m, init) + if last in m then [m[last]] else []
  }

  function CharSum(text: string): nat {
    if text == "" then 0 else CharSum(text[..|text| - 1]) + text[|text| - 1] as int
  }

  /** _pick_entry. */
  function Pick(entries: seq<Entry>, seed: string): (picked: Option<Entry>)
    ensures picked.Some? <==> entries != []
    ensures picked.Some? ==> picked.value in entries
  {
    if entries == [] then None else Some(entries[CharSum(seed) % |entries|])
  }

  lemma {:induction false} CharSumConcat(a: string, b: string)
    ensures CharSum(a + b) == CharSum(a) + CharSum(b)
  {
    if b == "" {
      assert a + b == a;
    } else {
      var init := b[..|b| - 1];
      CharSumConcat(a, init);
      assert (a + b)[..|a + b| - 1] == a + init;
    }
  }

  /** The place reached from place i by so many steps round a list of n. */
  function Walk(i: nat, steps: nat, n: nat): (place: nat)
    requires i < n
    ensures place < n
    decreases steps
  {
    if steps == 0 then i else Walk(if i + 1 == n then 0 else i + 1, steps - 1, n)
  }

  lemma {:induction false} Grows(n: nat, p: int, q: int)
    requires p < q
    ensures n * p + n <= n * q
    decreases q - p
  {
    assert n * (p + 1) == n * p + n;
    if p + 1 < q { Grows(n, p + 1, q); }
  }

  lemma ModIs(x: int, n: nat, q: int, r: nat)
    requires r < n && x == n * q + r
    ensures x % n == r
  {
    var p, m := x / n, x % n;
    assert x == n * p + m && 0 <= m < n;
    if p < q { Grows(n, p, q); } else if q < p { Grows(n, q, p); }
  }

  lemma NextPlace(a: nat, n: nat)
    requires n > 0
    ensures (a + 1) % n == if a % n + 1 == n then 0 else a % n + 1
  {
    var q, r := a / n, a % n;
    assert a == n * q + r;
    if r + 1 == n {
      assert n * (q + 1) == n * q + n;
      ModIs(a + 1, n, q + 1, 0);
    } else {
      ModIs(a + 1, n, q, r + 1);
    }
  }

  lemma {:induction false} WalkAdds(a: nat, b: nat, n: nat)
    requires n > 0
    ensures Walk(a % n, b, n) == (a + b) % n
    decreases b
  {
    if b > 0 {
      NextPlace(a, n);
      WalkAdds(a + 1, b - 1, n);
    }
  }

  /**
   Picking goes round the list: the empty seed picks the first entry, and each further
   character moves on by its code.
   */
  lemma PickGoesRound(entries: seq<Entry>, seed: string, c: char)
    requires entries != []
    ensures Pick(entries, "") == Some(entries[0])
    ensures exists i :: && 0 <= i < |entries| && Pick(entries, seed) == Some(entries[i])
                        && Pick(entries, seed + [c]) == Some(entries[Walk(i, c as int, |entries|)])
  {
    ModIs(0, |entries|, 0, 0);
    CharSumConcat(seed, [c]);
    assert CharSum([c]) == c as int;
    WalkAdds(CharSum(seed), c as int, |entries|);
    var i := CharSum(seed) % |entries|;
    assert Walk(i, c as int, |entries|) == CharSum(seed + [c]) % |entries|;
    assert Pick(entries, seed) == Some(entries[i]);
    assert Pick(entries, seed + [c]) == Some(entries[CharSum(seed + [c]) % |entries|]);
    assert Pick(entries, seed + [c]) == Some(entries[Walk(i, c as int, |entries|)]);
  }

  // ---------------------------------------------------------------- routes

  /** SERA_ROUTE_TABLE: template bank and whether the route asks for an intervention. */
  function RouteEntry(sub: string): Option<(BankKey, bool)> {
    if sub == "标准型" then Some((Default, false))
    else if sub == "积极协作型" then Some((Positive, true))
    else if sub == "深度思考" || sub == "执行推进" || sub == "建设性冲突" || sub == "跑题脱离(有自调节)"
    then Some((Protected, false))
    else if sub == "人际性冲突" then Some((Conflict, true))
    else if sub == "困惑型" || sub == "在线沉默-低互动" then Some((SilenceLowInteraction, true))
    else if sub == "在线沉默-无人发言" then Some((SilenceNoText, true))
    else if sub == "一人主导型沉默" || sub == "参与不均" then Some((Imbalance, true))
    else if sub == "挫败型" then Some((Frustration, true))
    else if sub == "倦怠型" then Some((LowMotivation, true))
    else if sub == "跑题脱离(无自调节)" then Some((Offtask, true))
    else if sub == "敷衍脱离" then Some((PassiveDetachment, true))
    else if sub == "分工混乱" || sub == "推进无序" then Some((Coordination, true))
    else None
  }

  function Route(sub: string): (BankKey, bool) {
    var entry := RouteEntry(sub);
    if entry.Some? then entry.value else (Default, false)
  }

  lemma BanksNotEmpty(c: Condition, key: BankKey)
    ensures Bank(c, key) != []
  {}

  /** choose_template_entry. */
  function ChooseTemplate(c: Condition, sub: string, seed: string): (entry: Entry)
    ensures entry in Bank(c, Route(sub).0)
  {
    BanksNotEmpty(c, Route(sub).0);
    Pick(Bank(c, Route(sub).0), seed).value
  }

  /** _choose_strategy_entry: by the strategy's own ids, else from its fallback bank. */
  function ChooseStrategyEntry(c: Condition, s: StrategyId, seed: string): Entry {
    var entries := EntriesByIds(TemplateEntryById(), TemplateIds(s, c));
    BanksNotEmpty(c, FallbackKey(s));
    if entries != [] then Pick(entries, seed).value else Pick(Bank(c, FallbackKey(s)), seed).value
  }

  lemma StrategyListsIds(s: StrategyId, c: Condition)
    ensures TemplateIds(s, c) != []
  {}

  /** The ids of a strategy resolve, so its fallback bank is never needed. */
  lemma StrategyEntryIsOwn(c: Condition, s: StrategyId, seed: string)
    ensures var e := ChooseStrategyEntry(c, s, seed);
            e.id in TemplateIds(s, c) && e.condition == c && e.key == FallbackKey(s) && SpellsCondition(e.id, c)
  {
    StrategyListsIds(s, c);
    hide TemplateIds, TemplateEntryById, Bank;
    var ids, m := TemplateIds(s, c), TemplateEntryById();
    var entries := EntriesByIds(m, ids);
    LibraryResolves(s, c, 0);
    assert m[ids[0]] in entries;
    var e := ChooseStrategyEntry(c, s, seed);
    var i :| 0 <= i < |ids| && ids[i] in m && m[ids[i]] == e;
    LibraryResolves(s, c, i);
  }

  /** The id's own first letter: C of CTL, E of EXP. */
  predicate SpellsCondition(id: string, c: Condition) { id != "" && id[0] == if c.Control? then 'C' else 'E' }

  lemma BankSpellsCondition(c: Condition, key: BankKey, e: Entry)
    requires e in Bank(c, key)
    ensures e.condition == c && e.key == key && SpellsCondition(e.id, c)
  {
    var i :| 0 <= i < |Bank(c, key)| && Bank(c, key)[i] == e;
    IdsSpell(c, key, i);
  }

  // ---------------------------------------------------------------- selecting

  predicate Formal(code: Code) {
    code.ConflictTension? || code.NegativeSilence? || code.BlockedFrustration? || code.TaskDetached?
  }

  predicate Contains(text: string, word: string) {
    exists i :: 0 <= i <= |text| && word <= text[i..]
  }

  predicate ContainsAny(text: string, words: seq<string>) {
    exists i :: 0 <= i < |words| && Contains(text, words[i])
  }

  /** _select_strategy_id; `category` is the decision's strategy_category, "" without a decision. */
  function SelectStrategyId(code: Code, msgCount: int, sub: string, category: string,
      text: string): Option<StrategyId> {
    match code
    case NegativeSilence => Some(
      if Contains(sub, "无人发言") || msgCount <= 1 then SilenceRestart
      else if Contains(sub, "参与") || Contains(sub, "主导") then InviteQuietMembers
      else SilenceInviteViews)
    case ConflictTension => Some(
      if ContainsAny(text, ["目标", "任务", "要求", "主题", "题目"])
      then ConflictSharedGoal else ConflictEvidence)
    case BlockedFrustration => Some(
      if ContainsAny(text, ["资料", "线索", "信息", "依据", "证据", "案例"]) then FrustrationReviewInfo
      else if ContainsAny(text, ["不会", "卡住", "没思路", "不知道", "哪一步", "难"])
      then FrustrationIdentifyBlock
      else FrustrationDecompose)
    case TaskDetached => Some(
      if ContainsAny(text, ["下一步", "先做", "分工", "行动", "推进"]) || category == "coordination_support"
      then OfftaskNextAction
      else OfftaskRefocus)
    case _ => None
  }

  /** The context's llm_result and decision; an absent should_intervene is None. */
  datatype LlmResult = LlmResult(sub: Option<string>, shouldIntervene: Option<bool>)

  datatype Decision = Decision(shouldIntervene: Option<bool>, category: string)

  /**
   What a selection reads besides the condition. `inferred` is infer_sub_category's
   answer; `summary` the context summary; `group` the group id as printed.
   */
  datatype Situation = Situation(state: StatePayload, msgCount: int, sub: string, inferred: string, summary: string,
                                 group: string, llm: Option<LlmResult>, decision: Option<Decision>)

  datatype Selection = Selection(condition: Condition, sub: string, strategy: Option<StrategyId>, entry: Entry,
      shouldIntervene: bool)

  function SubCategory(x: Situation): string {
    if x.llm.Some? && x.llm.value.sub.Some? && RouteEntry(x.llm.value.sub.value).Some? then x.llm.value.sub.value
    else if x.sub != "" then x.sub else x.inferred
  }

  /** Decision first, then the route, unless an undecided model says no; never outside the formal states. */
  predicate ShouldIntervene(x: Situation) {
    Formal(x.state.code) && (
      if x.decision.Some? && x.decision.value.shouldIntervene.Some? then x.decision.value.shouldIntervene.value
      else Route(SubCategory(x)).1 && !(x.decision.None? && x.llm.Some? && x.llm.value.shouldIntervene == Some(false)))
  }

  function Category(x: Situation): string { if x.decision.Some? then x.decision.value.category else "" }

  function Tail(summary: string): string { if |summary| <= 240 then summary else summary[|summary| - 240..] }

  /** The seed text; `strategyName` is the strategy id or sub-category as printed. */
  function Seed(x: Situation, c: Condition, strategyName: string): string {
    x.group + "|" + (if c.Control? then "control" else "experiment") + "|" + strategyName + "|" + Tail(x.summary)
  }

  /** select_intervention_strategy; `nameOf` spells a strategy id. */
  function Select(x: Situation, condition: string, nameOf: StrategyId -> string): Selection {
    var c := ConditionOf(condition);
    var strategy := SelectStrategyId(x.state.code, x.msgCount, SubCategory(x), Category(x), x.summary);
    var entry := if strategy.Some? then ChooseStrategyEntry(c, strategy.value, Seed(x, c, nameOf(strategy.value)))
                 else ChooseTemplate(c, "标准型", Seed(x, c, "标准型"));
    Selection(c, SubCategory(x), strategy, entry, ShouldIntervene(x))
  }

  /**
   A control group never gets an experiment template, nor the other way round: the
   entry is filed in the condition's table, its id says so too, and it is one of the
   strategy's ids, or of the default bank when there is no strategy.
   */
  lemma SelectionStaysInCondition(x: Situation, condition: string, nameOf: StrategyId -> string)
    ensures var r := Select(x, condition, nameOf);
            && (r.condition.Control? <==> condition == "control")
            && r.entry.condition == r.condition && SpellsCondition(r.entry.id, r.condition)
            && (r.strategy.Some? ==> r.entry.id in TemplateIds(r.strategy.value, r.condition))
            && r.entry.key == if r.strategy.Some? then FallbackKey(r.strategy.value) else Default
  {
    var r := Select(x, condition, nameOf);
    if r.strategy.Some? {
      StrategyEntryIsOwn(r.condition, r.strategy.value, Seed(x, r.condition, nameOf(r.strategy.value)));
    } else {
      assert Route("标准型").0 == Default;
      BankSpellsCondition(r.condition, Default, r.entry);
    }
  }

  /** The sub-categories whose route asks for an intervention. */
  const INTERVENING: seq<string> :=
    ["积极协作型", "人际性冲突", "困惑型", "在线沉默-低互动", "在线沉默-无人发言", "一人主导型沉默", "参与不均", "挫败型", "倦怠型",
     "跑题脱离(无自调节)", "敷衍脱离", "分工混乱", "推进无序"]

  lemma RouteAsks(sub: string)
    ensures Route(sub).1 <==> sub in INTERVENING
  {}

  /** The sub-category used: the model's if a route knows it, else the one given, else the inferred one. */
  lemma SubCategoryExactly(x: Situation)
    ensures x.llm.Some? && x.llm.value.sub.Some? && RouteEntry(x.llm.value.sub.value).Some? ==>
              Some(SubCategory(x)) == x.llm.value.sub
    ensures x.llm.None? || x.llm.value.sub.None? || RouteEntry(x.llm.value.sub.value).None? ==>
              SubCategory(x) == if x.sub == "" then x.inferred else x.sub
  {}

  /**
   When a group is addressed: in a formal state, if the decision says so; or, without a
   say of the decision, if the route asks for it and no decision-less model objects.
   */
  lemma IntervenesExactly(x: Situation, condition: string, nameOf: StrategyId -> string)
    ensures Select(x, condition, nameOf).shouldIntervene <==>
            && (x.state.code == ConflictTension || x.state.code == NegativeSilence
                || x.state.code == BlockedFrustration || x.state.code == TaskDetached)
            && (|| (x.decision.Some? && x.decision.value.shouldIntervene == Some(true))
                || ((x.decision.None? || x.decision.value.shouldIntervene == None)
                    && SubCategory(x) in INTERVENING
                    && (x.decision.Some? || x.llm.None? || x.llm.value.shouldIntervene != Some(false))))
  {
    RouteAsks(SubCategory(x));
    hide Route, ChooseStrategyEntry, ChooseTemplate, SubCategory, SelectStrategyId;
  }

  /** The text holds the word. */
  predicate Holds(text: string, word: string) {
    exists i, j :: 0 <= i <= j <= |text| && text[i..j] == word
  }

  lemma ContainsExactly(text: string, word: string)
    ensures Contains(text, word) <==> Holds(text, word)
  {
    if i :| 0 <= i <= |text| && word <= text[i..] {
      assert text[i..][..|word|] == text[i..i + |word|];
      assert text[i..i + |word|] == word;
    }
    if i, j :| 0 <= i <= j <= |text| && text[i..j] == word {
      assert text[i..][..|word|] == word;
    }
  }

  predicate HoldsAny(text: string, words: seq<string>) { exists i :: 0 <= i < |words| && Holds(text, words[i]) }

  lemma ContainsAnyExactly(text: string, words: seq<string>)
    ensures ContainsAny(text, words) <==> HoldsAny(text, words)
  {
    forall i | 0 <= i < |words| ensures Contains(text, words[i]) <==> Holds(text, words[i]) {
      ContainsExactly(text, words[i]);
    }
  }

  /** Each strategy, and exactly when it is selected: those for silence by the sub-category and the message count. */
  lemma SilenceStrategies(x: Situation, condition: string, nameOf: StrategyId -> string)
    ensures var r, sub := Select(x, condition, nameOf).strategy, SubCategory(x);
            var silent := x.state.code == NegativeSilence;
            var restart := Holds(sub, "无人发言") || x.msgCount <= 1;
            var quiet := Holds(sub, "参与") || Holds(sub, "主导");
            && (r == Some(SilenceRestart) <==> silent && restart)
            && (r == Some(InviteQuietMembers) <==> silent && !restart && quiet)
            && (r == Some(SilenceInviteViews) <==> silent && !restart && !quiet)
  {
    ContainsExactly(SubCategory(x), "无人发言");
    ContainsExactly(SubCategory(x), "参与");
    ContainsExactly(SubCategory(x), "主导");
    hide Contains, ContainsAny, Holds, ChooseStrategyEntry, ChooseTemplate, SubCategory, ShouldIntervene;
  }

  /** The others by words of the summary, or by the decision's category. */
  lemma OtherStrategies(x: Situation, condition: string, nameOf: StrategyId -> string)
    ensures var r, code, text := Select(x, condition, nameOf).strategy, x.state.code, x.summary;
            var goal := HoldsAny(text, ["目标", "任务", "要求", "主题", "题目"]);
            var evidence := HoldsAny(text, ["资料", "线索", "信息", "依据", "证据", "案例"]);
            var blocked := HoldsAny(text, ["不会", "卡住", "没思路", "不知道", "哪一步", "难"]);
            var next := HoldsAny(text, ["下一步", "先做", "分工", "行动", "推进"])
                        || (x.decision.Some? && x.decision.value.category == "coordination_support");
            && (r == Some(ConflictSharedGoal) <==> code == ConflictTension && goal)
            && (r == Some(ConflictEvidence) <==> code == ConflictTension && !goal)
            && (r == Some(FrustrationReviewInfo) <==> code == BlockedFrustration && evidence)
            && (r == Some(FrustrationIdentifyBlock) <==> code == BlockedFrustration && !evidence && blocked)
            && (r == Some(FrustrationDecompose) <==> code == BlockedFrustration && !evidence && !blocked)
            && (r == Some(OfftaskNextAction) <==> code == TaskDetached && next)
            && (r == Some(OfftaskRefocus) <==> code == TaskDetached && !next)
  {
    ContainsAnyExactly(x.summary, ["目标", "任务", "要求", "主题", "题目"]);
    ContainsAnyExactly(x.summary, ["资料", "线索", "信息", "依据", "证据", "案例"]);
    ContainsAnyExactly(x.summary, ["不会", "卡住", "没思路", "不知道", "哪一步", "难"]);
    ContainsAnyExactly(x.summary, ["下一步", "先做", "分工", "行动", "推进"]);
    hide Contains, ContainsAny, HoldsAny, ChooseStrategyEntry, ChooseTemplate, SubCategory, ShouldIntervene;
  }

  /** What a template is picked by: group, condition, strategy and the last 240 characters of the summary. */
  lemma SeedExactly(x: Situation, c: Condition, name: string) returns (head: string, tail: string)
    ensures x.summary == head + tail && |tail| <= 240 && (head == "" || |tail| == 240)
    ensures Seed(x, c, name) == Joined([x.group, if c.Control? then "control" else "experiment", name, tail], "|||")
  {
    var cut := if |x.summary| <= 240 then 0 else |x.summary| - 240;
    head, tail := x.summary[..cut], x.summary[cut..];
    var mode := if c.Control? then "control" else "experiment";
    assert tail == Tail(x.summary);
    JoinedFour(x.group, mode, name, tail);
  }

  lemma JoinedFour(a: string, b: string, c: string, d: string)
    ensures Joined([a, b, c, d], "|||") == a + "|" + b + "|" + c + "|" + d
  {
    assert [a, b, c, d][1..] == [b, c, d] && [b, c, d][1..] == [c, d] && [c, d][1..] == [d];
    assert "|||"[1..] == "||" && "||"[1..] == "|" && "|"[1..] == "";
    assert Joined([c, d], "|") == c + "|" + d;
    assert Joined([b, c, d], "||") == b + "|" + (c + "|" + d);
  }

  lemma {:induction false} EntriesInOrder(m: map<string, Entry>, ids: seq<string>, k: nat)
    requires k < |ids| && forall i :: 0 <= i < |ids| ==> ids[i] in m
    ensures |EntriesByIds(m, ids)| == |ids| && EntriesByIds(m, ids)[k] == m[ids[k]]
  {
    var init := ids[..|ids| - 1];
    if |init| > 0 {
      EntriesInOrder(m, init, if k < |init| then k else 0);
    }
  }

  /** The template said is the strategy's id that the seed leads to, counted round the strategy's list. */
  lemma EntryBySeed(x: Situation, condition: string, nameOf: StrategyId -> string)
    requires Formal(x.state.code)
    ensures var r := Select(x, condition, nameOf);
            && r.strategy.Some?
            && var ids := TemplateIds(r.strategy.value, r.condition);
               |ids| > 0 && r.entry.id == ids[CharSum(Seed(x, r.condition, nameOf(r.strategy.value))) % |ids|]
  {
    StrategyAddressesState(x.state.code, x.msgCount, SubCategory(x), Category(x), x.summary);
    var r := Select(x, condition, nameOf);
    EntryOfStrategy(r.condition, r.strategy.value, Seed(x, r.condition, nameOf(r.strategy.value)));
    hide ChooseStrategyEntry, ChooseTemplate, SubCategory, ShouldIntervene, SelectStrategyId, TemplateIds, Seed;
  }

  lemma EntryOfStrategy(c: Condition, s: StrategyId, seed: string)
    ensures var ids := TemplateIds(s, c);
            |ids| > 0 && ChooseStrategyEntry(c, s, seed).id == ids[CharSum(seed) % |ids|]
  {
    StrategyListsIds(s, c);
    hide TemplateIds, TemplateEntryById, Bank;
    var ids, m := TemplateIds(s, c), TemplateEntryById();
    forall i | 0 <= i < |ids| ensures ids[i] in m && m[ids[i]].id == ids[i] {
      LibraryResolves(s, c, i);
    }
    EntriesInOrder(m, ids, CharSum(seed) % |ids|);
  }

  /** The bank a state's strategies speak from. */
  predicate Addresses(code: Code, key: BankKey) {
    match code
    case NegativeSilence => key.SilenceNoText? || key.SilenceLowInteraction? || key.Imbalance?
    case ConflictTension => key.Conflict?
    case BlockedFrustration => key.Frustration?
    case TaskDetached => key.Offtask?
    case _ => key.Default?
  }

  /** A strategy is selected exactly in a formal state, and speaks from a bank that addresses it. */
  lemma StrategyAddressesState(code: Code, msgCount: int, sub: string, category: string, text: string)
    ensures SelectStrategyId(code, msgCount, sub, category, text).Some? <==> Formal(code)
    ensures var strategy := SelectStrategyId(code, msgCount, sub, category, text);
            Addresses(code, if strategy.Some? then FallbackKey(strategy.value) else Default)
  {}

  /** Intervening implies a formal state and a strategy, and what is said addresses that very state. */
  lemma InterventionHasStrategy(x: Situation, condition: string, nameOf: StrategyId -> string)
    ensures var r := Select(x, condition, nameOf);
            && (r.shouldIntervene ==> r.strategy.Some?)
            && (r.strategy.Some? <==> Formal(x.state.code))
            && Addresses(x.state.code, r.entry.key)
  {
    StrategyAddressesState(x.state.code, x.msgCount, SubCategory(x), Category(x), x.summary);
    assert Select(x, condition, nameOf).shouldIntervene ==> Formal(x.state.code);
    SelectionStaysInCondition(x, condition, nameOf);
  }

  /** Whether and with which strategy a group is addressed does not depend on its condition; only the template does. */
  lemma ConditionOnlyPicksTemplate(x: Situation, nameOf: StrategyId -> string, one: string, other: string)
    ensures var a, b := Select(x, one, nameOf), Select(x, other, nameOf);
            && a.strategy == b.strategy && a.shouldIntervene == b.shouldIntervene && a.sub == b.sub
            && a.entry.key == b.entry.key
            && (ConditionOf(one) == ConditionOf(other) ==> a == b)
            && (ConditionOf(one) != ConditionOf(other) ==> a.entry.id != b.entry.id)
  {
    SelectionStaysInCondition(x, one, nameOf);
    SelectionStaysInCondition(x, other, nameOf);
  }
}
