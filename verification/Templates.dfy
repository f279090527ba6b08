/**
 The template banks (knowledge_base.py) and the strategy library (agent/strategy.py)
 with the ids they list, and the one map over both banks that resolves an id.
 */
module Templates {
  datatype Condition = Experiment | Control

  datatype BankKey =
    | Positive | SilenceNoText | SilenceLowInteraction | Imbalance | Conflict | Frustration
    | LowMotivation | Offtask | PassiveDetachment | Coordination | Protected | Default

  /** SERA_EXPERIMENT_TEMPLATES: the ids of each bank, in order. */
  function ExperimentIds(key: BankKey): seq<string> {
    match key
    case Positive => ["EXP-POS-01", "EXP-POS-02", "EXP-POS-03", "EXP-POS-04", "EXP-POS-05", "EXP-POS-06"]
    case SilenceNoText => ["EXP-SIL-01", "EXP-SIL-02", "EXP-SIL-03", "EXP-SIL-04", "EXP-SIL-05", "EXP-SIL-06"]
    case SilenceLowInteraction => ["EXP-LINT-01", "EXP-LINT-02", "EXP-LINT-03", "EXP-LINT-04", "EXP-LINT-05",
        "EXP-LINT-06"]
    case Imbalance => ["EXP-IMB-01", "EXP-IMB-02", "EXP-IMB-03", "EXP-IMB-04", "EXP-IMB-05", "EXP-IMB-06"]
    case Conflict => ["EXP-CON-01", "EXP-CON-02", "EXP-CON-03", "EXP-CON-04", "EXP-CON-05", "EXP-CON-06"]
    case Frustration => ["EXP-FRU-01", "EXP-FRU-02", "EXP-FRU-03", "EXP-FRU-04", "EXP-FRU-05", "EXP-FRU-06"]
    case LowMotivation => ["EXP-MOT-01", "EXP-MOT-02", "EXP-MOT-03", "EXP-MOT-04"]
    case Offtask => ["EXP-OFF-01", "EXP-OFF-02", "EXP-OFF-03", "EXP-OFF-04", "EXP-OFF-05", "EXP-OFF-06"]
    case PassiveDetachment => ["EXP-PAS-01", "EXP-PAS-02", "EXP-PAS-03", "EXP-PAS-04"]
    case Coordination => ["EXP-COO-01", "EXP-COO-02", "EXP-COO-03", "EXP-COO-04", "EXP-COO-05", "EXP-COO-06"]
    case Protected => ["EXP-OI-01", "EXP-OI-02"]
    case Default => ["EXP-DEF-01"]
  }

  /** SERA_CONTROL_TEMPLATES. */
  function ControlIds(key: BankKey): seq<string> {
    match key
    case Positive => ["CTL-POS-01", "CTL-POS-02", "CTL-POS-03", "CTL-POS-04", "CTL-POS-05", "CTL-POS-06"]
    case SilenceNoText => ["CTL-SIL-01", "CTL-SIL-02", "CTL-SIL-03", "CTL-SIL-04", "CTL-SIL-05", "CTL-SIL-06"]
    case SilenceLowInteraction => ["CTL-LINT-01", "CTL-LINT-02", "CTL-LINT-03", "CTL-LINT-04", "CTL-LINT-05",
        "CTL-LINT-06"]
    case Imbalance => ["CTL-IMB-01", "CTL-IMB-02", "CTL-IMB-03", "CTL-IMB-04", "CTL-IMB-05", "CTL-IMB-06"]
    case Conflict => ["CTL-CON-01", "CTL-CON-02", "CTL-CON-03", "CTL-CON-04", "CTL-CON-05", "CTL-CON-06"]
    case Frustration => ["CTL-FRU-01", "CTL-FRU-02", "CTL-FRU-03", "CTL-FRU-04", "CTL-FRU-05", "CTL-FRU-06"]
    case LowMotivation => ["CTL-MOT-01", "CTL-MOT-02", "CTL-MOT-03", "CTL-MOT-04"]
    case Offtask => ["CTL-OFF-01", "CTL-OFF-02", "CTL-OFF-03", "CTL-OFF-04", "CTL-OFF-05", "CTL-OFF-06"]
    case PassiveDetachment => ["CTL-PAS-01", "CTL-PAS-02", "CTL-PAS-03", "CTL-PAS-04"]
    case Coordination => ["CTL-COO-01", "CTL-COO-02", "CTL-COO-03", "CTL-COO-04", "CTL-COO-05", "CTL-COO-06"]
    case Protected => ["CTL-OI-01"]
    case Default => ["CTL-DEF-01"]
  }

  function Ids(c: Condition, key: BankKey): seq<string> {
    if c.Experiment? then ExperimentIds(key) else ControlIds(key)
  }

  datatype StrategyId =
    | SilenceRestart | SilenceInviteViews | ConflictEvidence | ConflictSharedGoal
    | FrustrationIdentifyBlock | FrustrationDecompose | FrustrationReviewInfo
    | OfftaskRefocus | OfftaskNextAction | InviteQuietMembers

  /** INTERVENTION_STRATEGY_LIBRARY: fallback_template_key. */
  function FallbackKey(s: StrategyId): BankKey {
    match s
    case SilenceRestart => SilenceNoText
    case SilenceInviteViews => SilenceLowInteraction
    case ConflictEvidence => Conflict
    case ConflictSharedGoal => Conflict
    case FrustrationIdentifyBlock => Frustration
    case FrustrationDecompose => Frustration
    case FrustrationReviewInfo => Frustration
    case OfftaskRefocus => Offtask
    case OfftaskNextAction => Offtask
    case InviteQuietMembers => Imbalance
  }

  /** INTERVENTION_STRATEGY_LIBRARY: template_ids. */
  function TemplateIds(s: StrategyId, c: Condition): seq<string> {
    match (s, c)
    case (SilenceRestart, Experiment) => ["EXP-SIL-01", "EXP-SIL-04", "EXP-SIL-06"]
    case (SilenceRestart, Control) => ["CTL-SIL-01", "CTL-SIL-04", "CTL-SIL-06"]
    case (SilenceInviteViews, Experiment) => ["EXP-LINT-01", "EXP-LINT-02", "EXP-LINT-04", "EXP-LINT-05"]
    case (SilenceInviteViews, Control) => ["CTL-LINT-01", "CTL-LINT-02", "CTL-LINT-04", "CTL-LINT-05"]
    case (ConflictEvidence, Experiment) => ["EXP-CON-01", "EXP-CON-03", "EXP-CON-04"]
    case (ConflictEvidence, Control) => ["CTL-CON-01", "CTL-CON-03", "CTL-CON-05"]
    case (ConflictSharedGoal, Experiment) => ["EXP-CON-02", "EXP-CON-06"]
    case (ConflictSharedGoal, Control) => ["CTL-CON-02", "CTL-CON-04", "CTL-CON-06"]
    case (FrustrationIdentifyBlock, Experiment) => ["EXP-FRU-02", "EXP-FRU-04"]
    case (FrustrationIdentifyBlock, Control) => ["CTL-FRU-01", "CTL-FRU-02"]
    case (FrustrationDecompose, Experiment) => ["EXP-FRU-01", "EXP-FRU-03", "EXP-FRU-06"]
    case (FrustrationDecompose, Control) => ["CTL-FRU-03", "CTL-FRU-04", "CTL-FRU-06"]
    case (FrustrationReviewInfo, Experiment) => ["EXP-FRU-05"]
    case (FrustrationReviewInfo, Control) => ["CTL-FRU-05"]
    case (OfftaskRefocus, Experiment) => ["EXP-OFF-01", "EXP-OFF-02", "EXP-OFF-06"]
    case (OfftaskRefocus, Control) => ["CTL-OFF-01", "CTL-OFF-02", "CTL-OFF-06"]
    case (OfftaskNextAction, Experiment) => ["EXP-OFF-03", "EXP-OFF-04", "EXP-OFF-05"]
    case (OfftaskNextAction, Control) => ["CTL-OFF-03", "CTL-OFF-04", "CTL-OFF-05"]
    case (InviteQuietMembers, Experiment) => ["EXP-IMB-01", "EXP-IMB-03", "EXP-IMB-05"]
    case (InviteQuietMembers, Control) => ["CTL-IMB-01", "CTL-IMB-03", "CTL-IMB-05"]
  }

  /** A template, with the table and bank it is filed in. */
  datatype Entry = Entry(id: string, condition: Condition, key: BankKey)

  function Bank(c: Condition, key: BankKey): (entries: seq<Entry>)
    ensures |entries| == |Ids(c, key)|
  {
    seq(|Ids(c, key)|, i requires 0 <= i < |Ids(c, key)| => Entry(Ids(c, key)[i], c, key))
  }

  // ---------------------------------------------------------------- what an id spells

  /** The three characters after the prefix of a bank's ids. */
  function Letters(key: BankKey): (letters: string)
    ensures |letters| == 3
  {
    match key
    case Positive => "POS" case SilenceNoText => "SIL" case SilenceLowInteraction => "LIN" case Imbalance => "IMB"
    case Conflict => "CON" case Frustration => "FRU" case LowMotivation => "MOT" case Offtask => "OFF"
    case PassiveDetachment => "PAS" case Coordination => "COO" case Protected => "OI-" case Default => "DEF"
  }

  /** C for CTL or E for EXP, then the bank's letters, then the number. */
  predicate Spells(id: string, c: Condition, key: BankKey, number: int) {
    && |id| >= 9
    && id[0] == (if c.Control? then 'C' else 'E')
    && id[4] == Letters(key)[0] && id[5] == Letters(key)[1] && id[6] == Letters(key)[2]
    && id[|id| - 1] as int - '0' as int == number
  }

  lemma ExperimentIdsSpell(key: BankKey, i: nat)
    requires i < |ExperimentIds(key)|
    ensures Spells(ExperimentIds(key)[i], Experiment, key, i + 1)
  {
    assert i == 0 || i == 1 || i == 2 || i == 3 || i == 4 || i == 5;
  }

  lemma ControlIdsSpell(key: BankKey, i: nat)
    requires i < |ControlIds(key)|
    ensures Spells(ControlIds(key)[i], Control, key, i + 1)
  {
    assert i == 0 || i == 1 || i == 2 || i == 3 || i == 4 || i == 5;
  }

  /** Every listed id spells the table and the bank it is filed in, and its place there. */
  lemma IdsSpell(c: Condition, key: BankKey, i: nat)
    requires i < |Ids(c, key)|
    ensures Spells(Ids(c, key)[i], c, key, i + 1)
  {
    if c.Experiment? { ExperimentIdsSpell(key, i); } else { ControlIdsSpell(key, i); }
  }

  lemma SpellsOnce(id: string, c: Condition, key: BankKey, n: int, c': Condition, key': BankKey, n': int)
    requires Spells(id, c, key, n) && Spells(id, c', key', n')
    ensures c == c' && key == key' && n == n'
  {
  }

  /** No id is filed twice, in one table or across the two. */
  lemma IdsDoNotClash(c: Condition, key: BankKey, i: nat, c': Condition, key': BankKey, i': nat)
    requires i < |Ids(c, key)| && i' < |Ids(c', key')| && Ids(c, key)[i] == Ids(c', key')[i']
    ensures c == c' && key == key' && i == i'
  {
    IdsSpell(c, key, i);
    IdsSpell(c', key', i');
    SpellsOnce(Ids(c, key)[i], c, key, i + 1, c', key', i' + 1);
  }

  // ---------------------------------------------------------------- the map over both banks

  /** The innermost loop: later entries overwrite earlier ones of the same id. */
  function FileEntries(m: map<string, Entry>, entries: seq<Entry>): map<string, Entry> {
    if entries == [] then m else
      var last := entries[|entries| - 1];
      FileEntries(m, entries[..|entries| - 1])[last.id := last]
  }

  function FileTable(m: map<string, Entry>, c: Condition, keys: seq<BankKey>): map<string, Entry> {
    if keys == [] then m else FileEntries(FileTable(m, c, keys[..|keys| - 1]), Bank(c, keys[|keys| - 1]))
  }

  const KEYS: seq<BankKey> := [Positive, SilenceNoText, SilenceLowInteraction, Imbalance, Conflict, Frustration,
                               LowMotivation, Offtask, PassiveDetachment, Coordination, Protected, Default]

  /** _TEMPLATE_ENTRY_BY_ID: the experiment table, then the control table. */
  function TemplateEntryById(): map<string, Entry> {
    FileTable(FileTable(map[], Experiment, KEYS), Control, KEYS)
  }

  /** Every id leads to an entry of that id that some bank really holds. */
  ghost predicate Filed(m: map<string, Entry>) {
    forall id :: id in m ==> m[id].id == id && m[id] in Bank(m[id].condition, m[id].key)
  }

  lemma {:induction false} FileEntriesExactly(m: map<string, Entry>, entries: seq<Entry>, id: string)
    ensures id in FileEntries(m, entries) <==> id in m || exists i :: 0 <= i < |entries| && entries[i].id == id
    ensures id in FileEntries(m, entries) ==>
              || (id in m && FileEntries(m, entries)[id] == m[id])
              || (FileEntries(m, entries)[id] in entries && FileEntries(m, entries)[id].id == id)
  {
    if entries != [] { FileEntriesExactly(m, entries[..|entries| - 1], id); }
  }

  lemma {:induction false} FileTableKeepsFiled(m: map<string, Entry>, c: Condition, keys: seq<BankKey>)
    requires Filed(m)
    ensures Filed(FileTable(m, c, keys))
  {
    if keys != [] {
      var before, key := FileTable(m, c, keys[..|keys| - 1]), keys[|keys| - 1];
      FileTableKeepsFiled(m, c, keys[..|keys| - 1]);
      var after := FileEntries(before, Bank(c, key));
      forall id | id in after ensures after[id].id == id && after[id] in Bank(after[id].condition, after[id].key) {
        FileEntriesExactly(before, Bank(c, key), id);
      }
    }
  }

  lemma BankLists(c: Condition, key: BankKey, i: nat)
    requires i < |Ids(c, key)|
    ensures Bank(c, key)[i].id == Ids(c, key)[i]
  {}

  lemma {:induction false} FileTableHolds(m: map<string, Entry>, c: Condition, keys: seq<BankKey>, k: nat, i: nat)
    requires k < |keys| && i < |Ids(c, keys[k])|
    ensures Ids(c, keys[k])[i] in FileTable(m, c, keys)
  {
    hide Ids, Bank, FileEntries;
    var init, id := keys[..|keys| - 1], Ids(c, keys[k])[i];
    var before, last := FileTable(m, c, init), keys[|keys| - 1];
    FileEntriesExactly(before, Bank(c, last), id);
    if k < |init| { FileTableHolds(m, c, init, k, i); } else { BankLists(c, last, i); }
  }

  lemma {:induction false} FileTableKeepsIds(m: map<string, Entry>, c: Condition, keys: seq<BankKey>, id: string)
    requires id in m
    ensures id in FileTable(m, c, keys)
  {
    if keys != [] {
      FileTableKeepsIds(m, c, keys[..|keys| - 1], id);
      FileEntriesExactly(FileTable(m, c, keys[..|keys| - 1]), Bank(c, keys[|keys| - 1]), id);
    }
  }

  function KeyIndex(key: BankKey): (k: nat)
    ensures k < |KEYS| && KEYS[k] == key
  {
    match key
    case Positive => 0 case SilenceNoText => 1 case SilenceLowInteraction => 2 case Imbalance => 3 case Conflict => 4
    case Frustration => 5 case LowMotivation => 6 case Offtask => 7 case PassiveDetachment => 8 case Coordination => 9
    case Protected => 10 case Default => 11
  }

  /** Every id a bank lists resolves to the entry filed in that very table and bank. */
  lemma IdResolvesHome(c: Condition, key: BankKey, i: nat)
    requires i < |Ids(c, key)|
    ensures Ids(c, key)[i] in TemplateEntryById()
        && TemplateEntryById()[Ids(c, key)[i]] == Entry(Ids(c, key)[i], c, key)
  {
    var first, m, id := FileTable(map[], Experiment, KEYS), TemplateEntryById(), Ids(c, key)[i];
    if c.Experiment? {
      FileTableHolds(map[], c, KEYS, KeyIndex(key), i);
      FileTableKeepsIds(first, Control, KEYS, id);
    } else {
      FileTableHolds(first, c, KEYS, KeyIndex(key), i);
    }
    FileTableKeepsFiled(map[], Experiment, KEYS);
    FileTableKeepsFiled(first, Control, KEYS);
    var e := m[id];
    var j :| 0 <= j < |Bank(e.condition, e.key)| && Bank(e.condition, e.key)[j] == e;
    IdsDoNotClash(c, key, i, e.condition, e.key, j);
  }

  // ---------------------------------------------------------------- the library

  /** Where in its fallback bank the i-th id of a strategy stands. */
  function PlaceOf(s: StrategyId, c: Condition, i: nat): int
    requires i < |TemplateIds(s, c)|
  {
    var id := TemplateIds(s, c)[i];
    if id == "" then -1 else id[|id| - 1] as int - '1' as int
  }

  /** The i-th id of a strategy stands at its place in the fallback bank of the condition's table. */
  predicate IsInBank(s: StrategyId, c: Condition, i: nat)
    requires i < |TemplateIds(s, c)|
  {
    && 0 <= PlaceOf(s, c, i) < |Ids(c, FallbackKey(s))|
    && Ids(c, FallbackKey(s))[PlaceOf(s, c, i)] == TemplateIds(s, c)[i]
  }

  lemma ExperimentLibraryIsInBank(s: StrategyId, i: nat)
    requires i < |TemplateIds(s, Experiment)|
    ensures IsInBank(s, Experiment, i)
  {
    assert i == 0 || i == 1 || i == 2 || i == 3;
  }

  lemma ControlLibraryIsInBank(s: StrategyId, i: nat)
    requires i < |TemplateIds(s, Control)|
    ensures IsInBank(s, Control, i)
  {
    assert i == 0 || i == 1 || i == 2 || i == 3;
  }

  lemma LibraryIsInBank(s: StrategyId, c: Condition, i: nat)
    requires i < |TemplateIds(s, c)|
    ensures IsInBank(s, c, i)
  {
    if c.Experiment? { ExperimentLibraryIsInBank(s, i); } else { ControlLibraryIsInBank(s, i); }
  }

  /**
   Every id a strategy lists for a condition resolves, to a template of that
   condition's table and the strategy's own bank.
   */
  lemma LibraryResolves(s: StrategyId, c: Condition, i: nat)
    requires i < |TemplateIds(s, c)|
    ensures var id := TemplateIds(s, c)[i];
            && id in TemplateEntryById() && TemplateEntryById()[id] == Entry(id, c, FallbackKey(s))
            && |id| >= 9 && id[0] == (if c.Control? then 'C' else 'E')
  {
    LibraryIsInBank(s, c, i);
    IdResolvesHome(c, FallbackKey(s), PlaceOf(s, c, i));
    IdsSpell(c, FallbackKey(s), PlaceOf(s, c, i));
  }
}
