/**
 Group states (knowledge_base.py): evidence tags in any of their historical shapes,
 and old state codes, brought to the six final codes.
 */
module StateNames {
  import opened Tables
  import opened Text

  // ---------------------------------------------------------------- keeping each value once

  /** The cleaned items, blank ones dropped. */
  function Kept<T(==)>(items: seq<T>, clean: T -> T, blank: T): seq<T> {
    if items == [] then [] else
      var text := clean(items[|items| - 1]);
      Kept(items[..|items| - 1], clean, blank) + if text == blank then [] else [text]
  }

  /** Each value once, in the order of first appearance. */
  function Once<T(==)>(texts: seq<T>): seq<T> {
    if texts == [] then [] else
      var tags := Once(texts[..|texts| - 1]);
      if texts[|texts| - 1] in tags then tags else tags + [texts[|texts| - 1]]
  }

  ghost predicate Distinct<T>(tags: seq<T>) { forall i, j :: 0 <= i < j < |tags| ==> tags[i] != tags[j] }

  lemma {:induction false} OnceMeaning<T>(texts: seq<T>)
    ensures Distinct(Once(texts))
    ensures forall t :: t in Once(texts) <==> t in texts
    ensures Distinct(texts) ==> Once(texts) == texts
  {
    if texts != [] {
      OnceMeaning(texts[..|texts| - 1]);
      assert texts == texts[..|texts| - 1] + [texts[|texts| - 1]];
    }
  }

  ghost predicate Clean<T>(texts: seq<T>, clean: T -> T, blank: T) {
    forall i :: 0 <= i < |texts| ==> texts[i] != blank && clean(texts[i]) == texts[i]
  }

  lemma {:induction false} KeptIsClean<T(!new)>(items: seq<T>, clean: T -> T, blank: T)
    requires forall t :: clean(clean(t)) == clean(t)
    ensures Clean(Kept(items, clean, blank), clean, blank)
    ensures Clean(items, clean, blank) ==> Kept(items, clean, blank) == items
  {
    if items != [] {
      var init, last := items[..|items| - 1], items[|items| - 1];
      KeptIsClean(init, clean, blank);
      assert items == init + [last] && clean(clean(last)) == clean(last);
      assert Clean(items, clean, blank) ==> Clean(init, clean, blank) && clean(last) == last != blank;
    }
  }

  lemma OnceKeepsClean<T(!new)>(texts: seq<T>, clean: T -> T, blank: T)
    requires Clean(texts, clean, blank)
    ensures Clean(Once(texts), clean, blank)
  {
    OnceMeaning(texts);
    forall i | 0 <= i < |Once(texts)|
      ensures Once(texts)[i] in texts
    {}
  }

  lemma KeptNext<T>(before: seq<T>, items: seq<T>, j: nat, clean: T -> T, blank: T)
    requires j < |items|
    ensures var texts, text := before + Kept(items[..j], clean, blank), clean(items[j]);
            Once(before + Kept(items[..j + 1], clean, blank)) ==
            if text == blank || text in Once(texts) then Once(texts) else Once(texts) + [text]
  {
    var texts, text := before + Kept(items[..j], clean, blank), clean(items[j]);
    assert items[..j + 1][..j] == items[..j];
    if text != blank {
      assert before + Kept(items[..j + 1], clean, blank) == texts + [text];
      assert (texts + [text])[..|texts|] == texts;
    } else {
      assert Kept(items[..j + 1], clean, blank) == Kept(items[..j], clean, blank);
    }
  }

  // ---------------------------------------------------------------- evidence tags

  /** The shapes evidence tags arrive in; items are already text, a missing item is "". */
  datatype Evidence =
    | NoEvidence
    | Plain(text: string)
    | Items(items: seq<string>)
    | Dict(pairs: seq<(string, string)>)

  predicate IsSeparator(c: char) { c == ',' || c == ';' || c as int == 0xFF0C || c as int == 0xFF1B }

  /** Half- and full-width commas and semicolons all separate. */
  function Split(s: string): (parts: seq<string>)
    ensures parts != []
  {
    if s == "" then [""]
    else
      var rest := Split(s[1..]);
      if IsSeparator(s[0]) then [""] + rest else [[s[0]] + rest[0]] + rest[1..]
  }

  /** The parts with one separator after each but the last. */
  function Joined(parts: seq<string>, separators: string): string
    requires |parts| == |separators| + 1
  {
    if separators == "" then parts[0] else parts[0] + [separators[0]] + Joined(parts[1..], separators[1..])
  }

  /** Splitting cuts at every separator and nowhere else: the parts hold none, and joined again they are the text. */
  lemma {:induction false} SplitExactly(s: string) returns (separators: string)
    ensures |Split(s)| == |separators| + 1 && Joined(Split(s), separators) == s
    ensures forall i :: 0 <= i < |separators| ==> separators[i] in ",;，；"
    ensures forall i, k :: 0 <= i < |Split(s)| && 0 <= k < |Split(s)[i]| ==> Split(s)[i][k] !in ",;，；"
  {
    if s == "" {
      separators := "";
    } else {
      var rest := SplitExactly(s[1..]);
      var parts := Split(s[1..]);
      if IsSeparator(s[0]) {
        separators := [s[0]] + rest;
        assert Split(s)[1..] == parts && separators[1..] == rest;
        assert s == [s[0]] + s[1..];
      } else {
        separators := rest;
        assert Split(s)[0] == [s[0]] + parts[0] && Split(s)[1..] == parts[1..];
        assert s == [s[0]] + s[1..];
        JoinedWithFirst(parts, Split(s), s[0], rest);
      }
    }
  }

  lemma JoinedWithFirst(parts: seq<string>, longer: seq<string>, c: char, separators: string)
    requires |parts| == |longer| == |separators| + 1 && longer[0] == [c] + parts[0] && longer[1..] == parts[1..]
    ensures Joined(longer, separators) == [c] + Joined(parts, separators)
  {
    if separators != "" {
      assert [c] + parts[0] + [separators[0]] + Joined(parts[1..], separators[1..]) ==
             [c] + (parts[0] + [separators[0]] + Joined(parts[1..], separators[1..]));
    }
  }

  function PairKeys(pairs: seq<(string, string)>): seq<string> {
    seq(|pairs|, i requires 0 <= i < |pairs| => pairs[i].0)
  }

  function PairValues(pairs: seq<(string, string)>): seq<string> {
    seq(|pairs|, i requires 0 <= i < |pairs| => pairs[i].1)
  }

  function Candidates(value: Evidence): seq<string> {
    match value
    case NoEvidence => []
    case Plain(text) => if text == "" then [] else Split(text)
    case Items(items) => items
    case Dict(pairs) => PairKeys(pairs) + PairValues(pairs)
  }

  function Texts(values: seq<Evidence>): seq<string> {
    if values == [] then [] else Texts(values[..|values| - 1]) + Kept(Candidates(values[|values| - 1]), Strip, "")
  }

  function Coerced(values: seq<Evidence>): seq<string> { Once(Texts(values)) }

  /** A tag list as the rest of the program expects it: stripped, not empty, each once. */
  ghost predicate CleanTags(tags: seq<string>) { Distinct(tags) && Clean(tags, Strip, "") }

  lemma StripIdempotent()
    ensures forall s :: Strip(Strip(s)) == Strip(s)
  {
    forall s ensures Strip(Strip(s)) == Strip(s) { StripTwice(s); }
  }

  lemma {:induction false} TextsAreClean(values: seq<Evidence>)
    ensures Clean(Texts(values), Strip, "")
  {
    if values != [] {
      TextsAreClean(values[..|values| - 1]);
      StripIdempotent();
      KeptIsClean(Candidates(values[|values| - 1]), Strip, "");
    }
  }

  /** The coerced tags are clean, and clean tags passed back as a list come back unchanged. */
  lemma CoercedCleans(values: seq<Evidence>, tags: seq<string>)
    ensures CleanTags(Coerced(values))
    ensures CleanTags(tags) ==> Coerced([Items(tags)]) == tags
  {
    TextsAreClean(values);
    OnceMeaning(Texts(values));
    OnceKeepsClean(Texts(values), Strip, "");
    if CleanTags(tags) {
      StripIdempotent();
      KeptIsClean(tags, Strip, "");
      assert Texts([Items(tags)]) == tags;
      OnceMeaning(tags);
    }
  }

  lemma {:induction false} KeptHolds<T>(items: seq<T>, clean: T -> T, blank: T, t: T)
    ensures t in Kept(items, clean, blank) <==>
            t != blank && exists j :: 0 <= j < |items| && clean(items[j]) == t
  {
    if items != [] {
      var init := items[..|items| - 1];
      KeptHolds(init, clean, blank, t);
      assert forall j :: 0 <= j < |init| ==> init[j] == items[j];
    }
  }

  /** Some item of value i, stripped, is the tag. */
  ghost predicate Mentions(value: Evidence, tag: string) {
    exists j :: 0 <= j < |Candidates(value)| && Strip(Candidates(value)[j]) == tag
  }

  lemma KeptMentions(value: Evidence, tag: string)
    ensures tag in Kept(Candidates(value), Strip, "") <==> tag != "" && Mentions(value, tag)
  {
    hide Kept, Candidates, Strip;
    KeptHolds(Candidates(value), Strip, "", tag);
  }

  /** Some value mentions the tag. */
  ghost predicate Mentioned(values: seq<Evidence>, tag: string) {
    exists i :: 0 <= i < |values| && Mentions(values[i], tag)
  }

  lemma MentionedNext(init: seq<Evidence>, last: Evidence, tag: string)
    ensures Mentioned(init + [last], tag) <==> Mentioned(init, tag) || Mentions(last, tag)
  {
    hide Mentions;
    var values := init + [last];
    assert values[|init|] == last;
    if i :| 0 <= i < |init| && Mentions(init[i], tag) { assert Mentions(values[i], tag); }
  }

  lemma {:induction false} TextsHold(values: seq<Evidence>, tag: string)
    ensures tag in Texts(values) <==> tag != "" && Mentioned(values, tag)
  {
    if values != [] {
      hide Kept, Candidates, Strip, Mentions, Mentioned;
      var init, last := values[..|values| - 1], values[|values| - 1];
      assert values == init + [last];
      TextsHold(init, tag);
      KeptMentions(last, tag);
      MentionedNext(init, last, tag);
    }
  }

  /** Exactly the non-empty texts some value mentions become tags. */
  lemma TagsExactly(values: seq<Evidence>, tag: string)
    ensures tag in Coerced(values) <==> tag != "" && exists i :: 0 <= i < |values| && Mentions(values[i], tag)
  {
    hide Texts, Mentions;
    TextsHold(values, tag);
    OnceMeaning(Texts(values));
  }

  /** A missing value mentions nothing, a text its parts, */
  lemma TextMentions(text: string, tag: string)
    requires tag != ""
    ensures !Mentions(NoEvidence, tag)
    ensures Mentions(Plain(text), tag) <==> exists j :: 0 <= j < |Split(text)| && Strip(Split(text)[j]) == tag
  {
    if text == "" {
      assert Split(text) == [""] && Strip("") == "";
    } else {
      assert Candidates(Plain(text)) == Split(text);
    }
  }

  /** a list its items, */
  lemma ItemsMention(items: seq<string>, tag: string)
    ensures Mentions(Items(items), tag) <==> exists j :: 0 <= j < |items| && Strip(items[j]) == tag
  {
    hide Strip;
    assert Candidates(Items(items)) == items;
  }

  /** and a dict its keys and its values. */
  lemma DictMentions(pairs: seq<(string, string)>, tag: string)
    ensures Mentions(Dict(pairs), tag) <==>
            exists j :: 0 <= j < |pairs| && (Strip(pairs[j].0) == tag || Strip(pairs[j].1) == tag)
  {
    hide Strip;
    var keys, values := PairKeys(pairs), PairValues(pairs);
    var all := keys + values;
    assert Candidates(Dict(pairs)) == all;
    if j :| 0 <= j < |pairs| && (Strip(pairs[j].0) == tag || Strip(pairs[j].1) == tag) {
      assert all[j] == pairs[j].0 && all[|pairs| + j] == pairs[j].1;
    }
    if j :| 0 <= j < |all| && Strip(all[j]) == tag {
      var k := if j < |pairs| then j else j - |pairs|;
      assert all[j] == if j < |pairs| then pairs[k].0 else pairs[k].1;
    }
  }

  lemma OnceNext<T>(init: seq<T>, last: T)
    ensures Once(init + [last]) == if last in Once(init) then Once(init) else Once(init) + [last]
  {
    assert (init + [last])[..|init|] == init;
  }

  lemma OnceHolds<T>(texts: seq<T>, i: nat)
    requires i < |Once(texts)|
    ensures Once(texts)[i] in texts
  {
    OnceMeaning(texts);
    assert Once(texts)[i] in Once(texts);
  }

  /** `x` stands before every `y`. */
  ghost predicate Before<T>(texts: seq<T>, x: T, y: T) {
    exists a :: 0 <= a < |texts| && texts[a] == x && forall b :: 0 <= b < |texts| && texts[b] == y ==> a < b
  }

  lemma BeforeNext<T>(init: seq<T>, last: T, x: T, y: T)
    requires Before(init, x, y) || (x in init && y !in init)
    ensures Before(init + [last], x, y)
  {
    var a :| 0 <= a < |init| && init[a] == x && forall b :: 0 <= b < |init| && init[b] == y ==> a < b;
    assert (init + [last])[a] == x;
  }

  /** Tags stand in the order in which they first appear. */
  lemma {:induction false} OnceInOrder<T>(texts: seq<T>, i: nat, j: nat)
    requires i < j < |Once(texts)|
    ensures Before(texts, Once(texts)[i], Once(texts)[j])
  {
    var init, last := texts[..|texts| - 1], texts[|texts| - 1];
    assert texts == init + [last];
    OnceNext(init, last);
    var tags := Once(init);
    if j < |tags| {
      OnceInOrder(init, i, j);
      BeforeNext(init, last, tags[i], tags[j]);
    } else {
      OnceMeaning(init);
      OnceHolds(init, i);
      BeforeNext(init, last, tags[i], last);
    }
  }

  /** _coerce_evidence_tags. */
  method CoerceEvidenceTags(values: seq<Evidence>) returns (tags: seq<string>)
    ensures tags == Coerced(values) && CleanTags(tags)
  {
    tags := [];
    var i := 0;
    while i < |values|
      invariant 0 <= i <= |values|
      invariant tags == Once(Texts(values[..i]))
    {
      var items := Candidates(values[i]);
      ghost var before := Texts(values[..i]);
      var j := 0;
      assert before + Kept(items[..0], Strip, "") == before;
      while j < |items|
        invariant 0 <= j <= |items|
        invariant tags == Once(before + Kept(items[..j], Strip, ""))
      {
        KeptNext(before, items, j, Strip, "");
        var text := Strip(items[j]);
        if text != "" && text !in tags { tags := tags + [text]; }
        j := j + 1;
      }
      assert items[..j] == items;
      assert values[..i + 1][..i] == values[..i];
      i := i + 1;
    }
    assert values[..i] == values;
    CoercedCleans(values, []);
  }

  // ---------------------------------------------------------------- state codes

  /** The six final codes. */
  datatype Code =
    | PositiveCollaboration | NegativeSilence | ConflictTension | BlockedFrustration | TaskDetached | Unknown

  /** Codes earlier versions wrote. */
  datatype Legacy =
    | ParticipationImbalance | CoordinationDisorder | ConflictRepair | PositiveRecovery | InsufficientEvidence

  function CodeName(code: Code): string {
    match code
    case PositiveCollaboration => "positive_collaboration"
    case NegativeSilence => "negative_silence"
    case ConflictTension => "conflict_tension"
    case BlockedFrustration => "blocked_frustration"
    case TaskDetached => "task_detached"
    case Unknown => "unknown"
  }

  function LegacyName(legacy: Legacy): string {
    match legacy
    case ParticipationImbalance => "participation_imbalance"
    case CoordinationDisorder => "coordination_disorder"
    case ConflictRepair => "conflict_repair"
    case PositiveRecovery => "positive_recovery"
    case InsufficientEvidence => "insufficient_evidence"
  }

  function ParseCode(name: string): Option<Code> {
    if name == CodeName(PositiveCollaboration) then Some(PositiveCollaboration)
    else if name == CodeName(NegativeSilence) then Some(NegativeSilence)
    else if name == CodeName(ConflictTension) then Some(ConflictTension)
    else if name == CodeName(BlockedFrustration) then Some(BlockedFrustration)
    else if name == CodeName(TaskDetached) then Some(TaskDetached)
    else if name == CodeName(Unknown) then Some(Unknown)
    else None
  }

  function ParseLegacy(name: string): Option<Legacy> {
    if name == LegacyName(ParticipationImbalance) then Some(ParticipationImbalance)
    else if name == LegacyName(CoordinationDisorder) then Some(CoordinationDisorder)
    else if name == LegacyName(ConflictRepair) then Some(ConflictRepair)
    else if name == LegacyName(PositiveRecovery) then Some(PositiveRecovery)
    else if name == LegacyName(InsufficientEvidence) then Some(InsufficientEvidence)
    else None
  }

  const CONFLICT_TAGS: set<string> :=
    {"direct_disagreement", "mutual_rebuttal", "personalized_blame", "dominance_conflict", "unrepaired_conflict"}

  const DETACHED_TAGS: set<string> := {"off_task_topic", "passive_withdrawal", "low_motivation"}

  const RECOVERY_TAGS: set<string> :=
    {"return_to_task", "role_redistribution", "multi_member_followup",
     "summary_progress", "risk_resolved", "positive_recovery"}

  predicate AnyOf(tags: seq<string>, among: set<string>) { exists i :: 0 <= i < |tags| && tags[i] in among }

  function LegacyCode(legacy: Legacy, tags: seq<string>): Code {
    match legacy
    case ParticipationImbalance =>
      if AnyOf(tags, CONFLICT_TAGS) then ConflictTension
      else if AnyOf(tags, DETACHED_TAGS) then TaskDetached
      else Unknown
    case CoordinationDisorder => BlockedFrustration
    case ConflictRepair => if AnyOf(tags, RECOVERY_TAGS) then PositiveCollaboration else ConflictTension
    case PositiveRecovery => PositiveCollaboration
    case InsufficientEvidence => Unknown
  }

  /** `legacy` is the old code worth remembering; `normalized` says that the code was replaced. */
  datatype StatePayload = StatePayload(code: Code, legacy: Option<string>, normalized: bool, tags: seq<string>)

  /** legacy_state_code: a legacy code, or a code never known, as it was spelled. */
  function LegacyOf(raw: string, name: string): Option<string> {
    if name == "" || ParseCode(name).Some? then None
    else if ParseLegacy(name).Some? then Some(LegacyName(ParseLegacy(name).value))
    else if raw == "" then None else Some(raw)
  }

  function WithLegacy(tags: seq<string>, legacy: Option<string>): seq<string> {
    if legacy.Some? && legacy.value !in tags then tags + [legacy.value] else tags
  }

  /** normalize_state_payload; `lower` is str.lower. */
  function NormalizeState(stateCode: string, evidence: Evidence, lower: string -> string): StatePayload {
    var raw := Strip(stateCode);
    var name := lower(raw);
    var tags := Coerced([evidence]);
    var legacy := LegacyOf(raw, name);
    var known := ParseCode(name);
    var code := if known.Some? then known.value
                else if ParseLegacy(name).Some? then LegacyCode(ParseLegacy(name).value, tags) else Unknown;
    StatePayload(code, legacy, known.None?, WithLegacy(tags, legacy))
  }

  /** Lower-casing leaves the final codes alone. */
  ghost predicate KeepsCodes(lower: string -> string) { forall code :: lower(CodeName(code)) == CodeName(code) }

  lemma ParseCodeName(code: Code)
    ensures ParseCode(CodeName(code)) == Some(code)
  {
    assert |CodeName(PositiveCollaboration)| == 22 && |CodeName(NegativeSilence)| == 16
        && |CodeName(ConflictTension)| == 16;
    assert |CodeName(BlockedFrustration)| == 19 && |CodeName(TaskDetached)| == 13 && |CodeName(Unknown)| == 7;
    assert CodeName(NegativeSilence)[0] == 'n' && CodeName(ConflictTension)[0] == 'c';
  }

  lemma CodeNameStrips(code: Code)
    ensures Strip(CodeName(code)) == CodeName(code)
  {
    LetteredStrips(CodeName(code));
  }

  lemma LegacyNameStrips(legacy: Legacy)
    ensures LegacyName(legacy) != "" && Strip(LegacyName(legacy)) == LegacyName(legacy)
  {
    LetteredStrips(LegacyName(legacy));
  }

  /** The old code is one of the legacy names, or the raw code itself. */
  lemma LegacySpelling(raw: string, name: string)
    ensures var legacy := LegacyOf(raw, name);
            || legacy.None?
            || (legacy == Some(raw) && raw != "")
            || (ParseLegacy(name).Some? && legacy == Some(LegacyName(ParseLegacy(name).value)))
  {}

  lemma AppendKeepsClean<T>(tags: seq<T>, tag: T, clean: T -> T, blank: T)
    requires Distinct(tags) && Clean(tags, clean, blank)
    requires tag !in tags && tag != blank && clean(tag) == tag
    ensures Distinct(tags + [tag]) && Clean(tags + [tag], clean, blank)
  {}

  lemma WithLegacyCleans(tags: seq<string>, oldCode: string)
    requires CleanTags(tags) && oldCode != "" && Strip(oldCode) == oldCode
    ensures CleanTags(WithLegacy(tags, Some(oldCode))) && oldCode in WithLegacy(tags, Some(oldCode))
  {
    if oldCode !in tags { AppendKeepsClean(tags, oldCode, Strip, ""); }
  }

  lemma LegacyCleans(tags: seq<string>, raw: string, name: string)
    requires CleanTags(tags) && Strip(raw) == raw
    ensures CleanTags(WithLegacy(tags, LegacyOf(raw, name)))
    ensures LegacyOf(raw, name).Some? ==> LegacyOf(raw, name).value in WithLegacy(tags, LegacyOf(raw, name))
  {
    LegacySpelling(raw, name);
    var legacy := LegacyOf(raw, name);
    if legacy.Some? {
      if legacy != Some(raw) { LegacyNameStrips(ParseLegacy(name).value); }
      WithLegacyCleans(tags, legacy.value);
    }
  }

  /** The tags of a normalised payload are clean and hold the old code, so it is never lost. */
  lemma NormalizedTagsClean(stateCode: string, evidence: Evidence, lower: string -> string)
    ensures CleanTags(NormalizeState(stateCode, evidence, lower).tags)
    ensures var p := NormalizeState(stateCode, evidence, lower); p.legacy.Some? ==> p.legacy.value in p.tags
  {
    CoercedCleans([evidence], []);
    StripTwice(stateCode);
    LegacyCleans(Coerced([evidence]), Strip(stateCode), lower(Strip(stateCode)));
  }

  /** Normalising a normalised payload changes neither its code nor its tags. */
  lemma NormalizeTwice(stateCode: string, evidence: Evidence, lower: string -> string)
    requires KeepsCodes(lower)
    ensures var p := NormalizeState(stateCode, evidence, lower);
            NormalizeState(CodeName(p.code), Items(p.tags), lower) == StatePayload(p.code, None, false, p.tags)
  {
    var p := NormalizeState(stateCode, evidence, lower);
    NormalizedTagsClean(stateCode, evidence, lower);
    CoercedCleans([], p.tags);
    CodeNameStrips(p.code);
    ParseCodeName(p.code);
  }

  // ---------------------------------------------------------------- which code comes out

  predicate Has(tags: seq<string>, names: seq<string>) { exists i :: 0 <= i < |tags| && tags[i] in names }

  lemma LegacyIsNoCode(legacy: Legacy)
    ensures ParseCode(LegacyName(legacy)) == None && ParseLegacy(LegacyName(legacy)) == Some(legacy)
  {
    assert |LegacyName(ParticipationImbalance)| == 23 && |LegacyName(CoordinationDisorder)| == 21
        && |LegacyName(ConflictRepair)| == 15 && |LegacyName(PositiveRecovery)| == 17
        && |LegacyName(InsufficientEvidence)| == 21;
    assert LegacyName(CoordinationDisorder)[0] == 'c' && LegacyName(InsufficientEvidence)[0] == 'i';
    CodeLengths();
  }

  lemma CodeLengths()
    ensures |CodeName(PositiveCollaboration)| == 22 && |CodeName(NegativeSilence)| == 16
    ensures |CodeName(ConflictTension)| == 16 && |CodeName(BlockedFrustration)| == 19
    ensures |CodeName(TaskDetached)| == 13 && |CodeName(Unknown)| == 7
  {}

  lemma ParsedCode(name: string)
    ensures ParseCode(name).Some? ==> CodeName(ParseCode(name).value) == name
    ensures ParseCode(name).None? ==> forall code :: CodeName(code) != name
  {
    if code :| CodeName(code) == name { ParseCodeName(code); }
  }

  lemma ParsedLegacy(name: string)
    ensures ParseLegacy(name).Some? ==> LegacyName(ParseLegacy(name).value) == name
    ensures ParseLegacy(name).None? ==> forall legacy :: LegacyName(legacy) != name
  {
    if legacy :| LegacyName(legacy) == name { LegacyIsNoCode(legacy); }
  }

  /** Where each old code goes, by the evidence. */
  lemma OldCodesGo(tags: seq<string>)
    ensures LegacyCode(ParticipationImbalance, tags) ==
            if Has(tags, ["direct_disagreement", "mutual_rebuttal", "personalized_blame", "dominance_conflict",
                "unrepaired_conflict"]) then ConflictTension
            else if Has(tags, ["off_task_topic", "passive_withdrawal", "low_motivation"]) then TaskDetached
            else Unknown
    ensures LegacyCode(CoordinationDisorder, tags) == BlockedFrustration
    ensures LegacyCode(ConflictRepair, tags) ==
            if Has(tags, ["return_to_task", "role_redistribution", "multi_member_followup", "summary_progress",
                "risk_resolved", "positive_recovery"]) then PositiveCollaboration
            else ConflictTension
    ensures LegacyCode(PositiveRecovery, tags) == PositiveCollaboration
    ensures LegacyCode(InsufficientEvidence, tags) == Unknown
  {
    SameTags(tags, CONFLICT_TAGS, ["direct_disagreement", "mutual_rebuttal", "personalized_blame",
        "dominance_conflict", "unrepaired_conflict"]);
    SameTags(tags, DETACHED_TAGS, ["off_task_topic", "passive_withdrawal", "low_motivation"]);
    SameTags(tags, RECOVERY_TAGS, ["return_to_task", "role_redistribution", "multi_member_followup",
        "summary_progress", "risk_resolved", "positive_recovery"]);
  }

  lemma SameTags(tags: seq<string>, among: set<string>, names: seq<string>)
    requires forall name :: name in among <==> name in names
    ensures AnyOf(tags, among) <==> Has(tags, names)
  {}

  /**
   What normalising yields. A final code comes through as it is, with nothing to
   remember; an old one is replaced and remembered; anything else is unknown, and
   remembered as it was written unless it was blank.
   */
  lemma NormalizedCodeExactly(stateCode: string, evidence: Evidence, lower: string -> string)
    ensures var p, name, raw := NormalizeState(stateCode, evidence, lower), lower(Strip(stateCode)), Strip(stateCode);
            var tags := Coerced([evidence]);
            && (forall code :: name == CodeName(code) ==> p == StatePayload(code, None, false, tags))
            && (forall legacy :: name == LegacyName(legacy) ==>
                  && p.code == LegacyCode(legacy, tags) && p.legacy == Some(name) && p.normalized)
            && ((forall code :: name != CodeName(code)) && (forall legacy :: name != LegacyName(legacy)) ==>
                  && p.code == Unknown && p.normalized
                  && p.legacy == if name == "" || raw == "" then None else Some(raw))
            && p.tags == if p.legacy.Some? && p.legacy.value !in tags then tags + [p.legacy.value] else tags
  {
    var name := lower(Strip(stateCode));
    ParsedCode(name);
    ParsedLegacy(name);
    forall code | name == CodeName(code) ensures ParseCode(name) == Some(code) { ParseCodeName(code); }
    forall legacy | name == LegacyName(legacy)
      ensures ParseCode(name) == None && ParseLegacy(name) == Some(legacy) && name != ""
    {
      LegacyIsNoCode(legacy);
      LegacyNameStrips(legacy);
    }
    hide CodeName, LegacyName, ParseCode, ParseLegacy, LegacyCode, Coerced, Strip;
  }
}
