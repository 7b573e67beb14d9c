/** The fetch callback of src/hooks/useHealthData.ts: submissions are classified by form id,
    each category is filtered in the order the store returned (created_at ascending), and each
    submission's normalised answers are read through `??` alias chains into one chart point. */
module HealthData {
  import opened Wrappers
  import opened Json
  import Arrays
  import KeyNormalizer

  const FormHealth: string := "24f92e42-cf91-49ba-a78c-892b59365115"
  const FormFood: string := "a23bc623-ac74-4f56-b73a-18f65bb3e45a"
  const FormSleep: string := "a6cb6ae4-0955-4b70-8010-65d28da49df2"

  /** The three questionnaires that feed a chart: general health, food, sleep. */
  datatype Category = General | Food | Sleep

  function FormIdOf(c: Category): string
  {
    match c
    case General => FormHealth
    case Food => FormFood
    case Sleep => FormSleep
  }

  /** Exact comparison of a submission's form id with the three constants; any other id
      belongs to no category. */
  function Classify(formId: string): (r: Option<Category>)
    ensures forall c :: r == Some(c) <==> formId == FormIdOf(c)
  {
    if formId == FormHealth then Some(General)
    else if formId == FormFood then Some(Food)
    else if formId == FormSleep then Some(Sleep)
    else None
  }

  /** A row of the `submissions` query: `form_id`, `answers_json`, `created_at`. */
  datatype Submission = Submission(formId: string, answers: Value, createdAt: int)

  /** A `HealthDataPoint` of one of the three series. */
  datatype Point =
    | GeneralPoint(date: string, peso: Number, altura: Number, presion: Value, fuma: Value)
    | FoodPoint(date: string, comidasDia: Number)
    | SleepPoint(date: string, descanso: Number, horasSueno: Number)

  /** The alias chains, in the priority the `??` chains give them. */
  const DescansoAliases: seq<string> := ["descanso_percibido_(1-10)", "descanso_percibido_1-10", "descanso"]
  const HorasSuenoAliases: seq<string> := ["horas_de_sueno_por_noche", "horas_sueno", "horas_de_sueno"]

  /** The `.map` callback of one category: one point from one submission. */
  function Extract(h: Host, c: Category, s: Submission): (p: Point)
    ensures p.date == h.localeDate(s.createdAt)
    ensures p.GeneralPoint? <==> c == General
    ensures p.FoodPoint? <==> c == Food
    ensures p.SleepPoint? <==> c == Sleep
  {
    var a := KeyNormalizer.NormalizeAnswers(h, s.answers);
    var date := h.localeDate(s.createdAt);
    match c
    case General =>
      GeneralPoint(date,
        ToNumber(h, FirstPresent(a, ["peso"], JNumber(0.0))),
        ToNumber(h, FirstPresent(a, ["altura"], JNumber(0.0))),
        FirstPresent(a, ["presion"], JString("")),
        FirstPresent(a, ["fuma"], JString("")))
    case Food =>
      FoodPoint(date, ToNumber(h, FirstPresent(a, ["comidas_dia"], JNumber(0.0))))
    case Sleep =>
      SleepPoint(date,
        ToNumber(h, FirstPresent(a, DescansoAliases, JNumber(0.0))),
        ToNumber(h, FirstPresent(a, HorasSuenoAliases, JNumber(0.0))))
  }

  /** The `.filter` callback of one category. */
  function InCategory(c: Category): (p: Submission -> bool)
    ensures forall s :: p(s) <==> Classify(s.formId) == Some(c)
  {
    (s: Submission) => s.formId == FormIdOf(c)
  }

  /** `submissions.filter(...).map(...)` for one category. */
  function Series(h: Host, c: Category, subs: seq<Submission>): (r: seq<Point>)
    ensures |r| <= |subs|
    ensures forall k :: 0 <= k < |r| ==>
      exists i :: 0 <= i < |subs| && subs[i].formId == FormIdOf(c) && r[k] == Extract(h, c, subs[i])
  {
    var f := Arrays.Filter(InCategory(c), subs);
    var r := seq(|f|, i requires 0 <= i < |f| => Extract(h, c, f[i]));
    assert forall k :: 0 <= k < |r| ==> f[k] in subs && InCategory(c)(f[k]);
    r
  }

  /** A series holds one point per submission of its category and none for any other, in the
      order of the input: its k-th point comes from the k-th such submission. */
  lemma SeriesSelects(h: Host, c: Category, subs: seq<Submission>)
    ensures var ix := Arrays.Positions(InCategory(c), subs);
      && |Series(h, c, subs)| == |ix|
      && (forall k :: 0 <= k < |ix| ==> ix[k] < |subs| && Series(h, c, subs)[k] == Extract(h, c, subs[ix[k]]))
      && (forall k1, k2 :: 0 <= k1 < k2 < |ix| ==> ix[k1] < ix[k2])
      && (forall i :: 0 <= i < |subs| ==> (subs[i].formId == FormIdOf(c) <==> i in ix))
  {
    Arrays.FilterSelects(InCategory(c), subs);
    var ix := Arrays.Positions(InCategory(c), subs);
    forall i | 0 <= i < |subs| && i in ix ensures subs[i].formId == FormIdOf(c) {
      var k :| 0 <= k < |ix| && ix[k] == i;
      assert InCategory(c)(subs[ix[k]]);
    }
  }

  /** A submission whose form id is none of the three constants contributes to no series. */
  lemma SeriesSkipsUnclassified(h: Host, before: seq<Submission>, s: Submission, after: seq<Submission>)
    requires Classify(s.formId) == None
    ensures forall c :: Series(h, c, before + [s] + after) == Series(h, c, before + after)
  {
    forall c ensures Series(h, c, before + [s] + after) == Series(h, c, before + after) {
      assert s.formId != FormIdOf(c);
      Arrays.FilterSkip(InCategory(c), before, s, after);
    }
  }

  predicate IsUnclassified(s: Submission) {
    Classify(s.formId) == None
  }

  /** The submissions without a category. */
  function Unclassified(subs: seq<Submission>): seq<Submission>
  {
    Arrays.Filter(IsUnclassified, subs)
  }

  /** One more submission in front adds one to the count of what it matches. */
  lemma FilterConsCount(p: Submission -> bool, s: Submission, rest: seq<Submission>)
    ensures |Arrays.Filter(p, [s] + rest)| == |Arrays.Filter(p, rest)| + (if p(s) then 1 else 0)
  {
    Arrays.FilterAppend(p, [s], rest);
    assert [s][1..] == [];
  }

  /** Every submission lands in exactly one place: one of the three series, or nowhere. Since
      the three form ids differ, no submission is counted twice. */
  lemma {:induction false} SeriesPartition(h: Host, subs: seq<Submission>)
    ensures |Series(h, General, subs)| + |Series(h, Food, subs)| + |Series(h, Sleep, subs)|
            + |Unclassified(subs)| == |subs|
  {
    if subs != [] {
      var s, rest := subs[0], subs[1..];
      SeriesPartition(h, rest);
      assert subs == [s] + rest;
      FilterConsCount(IsUnclassified, s, rest);
      FilterConsCount(InCategory(General), s, rest);
      FilterConsCount(InCategory(Food), s, rest);
      FilterConsCount(InCategory(Sleep), s, rest);
      assert Classify(s.formId).Some? <==> !IsUnclassified(s);
    }
  }

  /** Sorted by creation time: what the query's `order("created_at", ascending)` delivers. */
  predicate Chronological(subs: seq<Submission>) {
    forall i, j :: 0 <= i < j < |subs| ==> subs[i].createdAt <= subs[j].createdAt
  }

  /** Series keep the chronological order of the query: the points of a series come from
      submissions of non-decreasing creation time. */
  lemma SeriesChronological(h: Host, c: Category, subs: seq<Submission>)
    requires Chronological(subs)
    ensures var ix := Arrays.Positions(InCategory(c), subs);
      forall k1, k2 :: 0 <= k1 < k2 < |ix| ==> subs[ix[k1]].createdAt <= subs[ix[k2]].createdAt
  {
  }

  /** Defaults, field by field: a field whose key (or every one of whose aliases) is missing
      or null is 0 when numeric and `""` when text, whatever the other fields hold. */
  lemma ExtractDefaults(h: Host, s: Submission)
    ensures var a := KeyNormalizer.NormalizeAnswers(h, s.answers);
      && (!Present(a, "peso") ==> Extract(h, General, s).peso == Finite(0.0))
      && (!Present(a, "altura") ==> Extract(h, General, s).altura == Finite(0.0))
      && (!Present(a, "presion") ==> Extract(h, General, s).presion == JString(""))
      && (!Present(a, "fuma") ==> Extract(h, General, s).fuma == JString(""))
      && (!Present(a, "comidas_dia") ==> Extract(h, Food, s).comidasDia == Finite(0.0))
      && ((forall k :: k in DescansoAliases ==> !Present(a, k)) ==> Extract(h, Sleep, s).descanso == Finite(0.0))
      && ((forall k :: k in HorasSuenoAliases ==> !Present(a, k)) ==> Extract(h, Sleep, s).horasSueno == Finite(0.0))
  {
    var a := KeyNormalizer.NormalizeAnswers(h, s.answers);
    var g, f, z := Extract(h, General, s), Extract(h, Food, s), Extract(h, Sleep, s);
    assert g.peso == ToNumber(h, FirstPresent(a, ["peso"], JNumber(0.0)));
    assert g.altura == ToNumber(h, FirstPresent(a, ["altura"], JNumber(0.0)));
    assert g.presion == FirstPresent(a, ["presion"], JString(""));
    assert g.fuma == FirstPresent(a, ["fuma"], JString(""));
    assert f.comidasDia == ToNumber(h, FirstPresent(a, ["comidas_dia"], JNumber(0.0)));
    assert z.descanso == ToNumber(h, FirstPresent(a, DescansoAliases, JNumber(0.0)));
    assert z.horasSueno == ToNumber(h, FirstPresent(a, HorasSuenoAliases, JNumber(0.0)));
    AliasesAbsent(a, DescansoAliases);
    AliasesAbsent(a, HorasSuenoAliases);
  }

  /** With every alias of a chain missing or null, the chain falls back to its default. */
  lemma AliasesAbsent(a: map<string, Value>, keys: seq<string>)
    ensures (forall k :: k in keys ==> !Present(a, k)) ==> FirstPresent(a, keys, JNumber(0.0)) == JNumber(0.0)
  {
  }

  /** The general and food fields: a present (neither missing nor null) `peso`, `altura` or
      `comidas_dia` becomes `Number` of its value, even when it is `0` or `""`; a present
      `presion` or `fuma` is passed on as it is, without conversion. */
  lemma PresentFields(h: Host, s: Submission)
    ensures var a := KeyNormalizer.NormalizeAnswers(h, s.answers);
      && (Present(a, "peso") ==> Extract(h, General, s).peso == ToNumber(h, a["peso"]))
      && (Present(a, "altura") ==> Extract(h, General, s).altura == ToNumber(h, a["altura"]))
      && (Present(a, "presion") ==> Extract(h, General, s).presion == a["presion"])
      && (Present(a, "fuma") ==> Extract(h, General, s).fuma == a["fuma"])
      && (Present(a, "comidas_dia") ==> Extract(h, Food, s).comidasDia == ToNumber(h, a["comidas_dia"]))
  {
  }

  /** `descanso` is read from the first present of its aliases in priority order, even when
      that value is `0` or `""`. */
  lemma SleepAliasPriority(h: Host, s: Submission, i: nat)
    requires i < 3
    requires var a := KeyNormalizer.NormalizeAnswers(h, s.answers);
      Present(a, DescansoAliases[i]) && forall j :: 0 <= j < i ==> !Present(a, DescansoAliases[j])
    ensures Extract(h, Sleep, s).descanso ==
            ToNumber(h, KeyNormalizer.NormalizeAnswers(h, s.answers)[DescansoAliases[i]])
  {
  }

  /** `horas_sueno` is read from the first present of its aliases in priority order. */
  lemma HorasSuenoAliasPriority(h: Host, s: Submission, i: nat)
    requires i < 3
    requires var a := KeyNormalizer.NormalizeAnswers(h, s.answers);
      Present(a, HorasSuenoAliases[i]) && forall j :: 0 <= j < i ==> !Present(a, HorasSuenoAliases[j])
    ensures Extract(h, Sleep, s).horasSueno ==
            ToNumber(h, KeyNormalizer.NormalizeAnswers(h, s.answers)[HorasSuenoAliases[i]])
  {
  }

  /** The state of the `useHealthData` hook: the three series and the loading flag. */
  class HealthDataHook {
    var generalData: seq<Point>
    var alimentacionData: seq<Point>
    var suenoData: seq<Point>
    var loading: bool

    constructor()
      ensures generalData == [] && alimentacionData == [] && suenoData == [] && loading
    {
      generalData, alimentacionData, suenoData := [], [], [];
      loading := true;
    }

    /** The effect for `userId`. Without a (non-empty) user id nothing runs. Otherwise the
        submissions query is answered by `reply` (`None` when it reports an error): on an
        error the series are left as they were; on success each series is rebuilt from the
        reply; either way loading ends. */
    method FetchAll(h: Host, userId: Option<string>, reply: Option<seq<Submission>>)
      modifies this
      ensures userId.None? || userId.value == "" ==> unchanged(this)
      ensures userId.Some? && userId.value != "" ==> !loading
      ensures userId.Some? && userId.value != "" && reply.None? ==>
        generalData == old(generalData) && alimentacionData == old(alimentacionData) &&
        suenoData == old(suenoData)
      ensures userId.Some? && userId.value != "" && reply.Some? ==>
        generalData == Series(h, General, reply.value) &&
        alimentacionData == Series(h, Food, reply.value) &&
        suenoData == Series(h, Sleep, reply.value)
    {
      if userId.None? || userId.value == "" {
        return;
      }
      loading := true;
      if reply.None? {
        loading := false;
        return;
      }
      var submissions := reply.value;
      generalData := Series(h, General, submissions);
      alimentacionData := Series(h, Food, submissions);
      suenoData := Series(h, Sleep, submissions);
      loading := false;
    }
  }
}
