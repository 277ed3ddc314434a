/** The insight generator around the language-model call: the window of an
    insight, the schedules listed in the prompt, the prompt's date-range text,
    and the checks applied to the model's reply before it is returned. */
module Insights {
  import opened Wrappers
  import opened Calendar
  import opened Text
  import opened Entities
  import opened Periods

  /** Parsed JSON, as `json.loads` returns it. */
  datatype Json = JString(text: string) | JList(items: seq<Json>) | JObject(fields: map<string, Json>) | JScalar

  const RecommendationsKey := "smart_recommendations"

  const ExpectedKeys: seq<string> := [RecommendationsKey, "adherence", "vital_sign_patterns", "unusual_spikes"]

  const DangerousKeywords: seq<string> := [
    "stop taking", "discontinue medication", "diagnose yourself", "self-prescribe",
    "cure diabetes", "cure hypertension", "replace insulin", "ignore doctor"]

  const GenericAdvice := "Continue to monitor your health logs and consult your healthcare provider for personalized advice."

  const DefaultSummary := "No detailed summary provided by AI."

  /** The window end of `generate_insight`: an unknown period raises
      ValueError before anything else happens. */
  function InsightEnd(period: Period, start: Day): (r: Result<Day>)
    ensures r.Err? <==> period.Other?
    ensures r.Err? ==> r.failure == Raised("ValueError")
    ensures r.Ok? ==> PeriodEnd(period, start) == Some(r.value)
  {
    match PeriodEnd(period, start)
    case None => Err(Raised("ValueError"))
    case Some(e) => Ok(e)
  }

  /** The schedule filter of the prompt's schedule lists: active, starting
      by the window's end, and ending (an open end counting as the window's
      end) no earlier than the window's start. */
  predicate Overlaps(x: CheckSchedule, s: Day, e: Day) {
    x.isActive && x.startDate <= e && OrElse(x.endDate, e) >= s
  }

  function ListedSchedules(rows: seq<CheckSchedule>, s: Day, e: Day): (r: seq<CheckSchedule>)
    ensures forall x :: x in r <==> x in rows && Overlaps(x, s, e)
    ensures |r| <= |rows|
  {
    if rows == [] then []
    else
      var last := rows[|rows| - 1];
      ListedSchedules(rows[..|rows| - 1], s, e) + (if Overlaps(last, s, e) then [last] else [])
  }

  /** For a schedule whose end is not before its start, the filter is
      exactly "active and due on some day of the window". */
  lemma OverlapMeaning(x: CheckSchedule, s: Day, e: Day)
    requires s <= e
    requires x.endDate.None? || x.startDate <= x.endDate.value
    ensures Overlaps(x, s, e) <==> x.isActive && exists d :: s <= d <= e && ActiveOn(x.startDate, x.endDate, d)
  {
    if Overlaps(x, s, e) {
      var d := if x.startDate < s then s else x.startDate;
      assert s <= d <= e && ActiveOn(x.startDate, x.endDate, d);
    }
  }

  /** `date_range_str`: "start to end", or just "start" for a one-day window. */
  datatype RangeText = OneDay(day: Day) | Span(first: Day, last: Day)

  function DateRangeText(s: Day, e: Day): RangeText {
    if s != e then Span(s, e) else OneDay(s)
  }

  /** The prompt names a single day exactly for a daily insight, or for a
      monthly one started on the last day of a month. */
  lemma {:induction false} InsightRangeText(period: Period, start: Day)
    requires !period.Other?
    ensures DateRangeText(start, PeriodEnd(period, start).value).OneDay? <==>
              period.Daily? || (period.Monthly? && start == LastOfMonth(start))
  {
    DayBeforeNextMonthIsLast(start);
  }

  /** A recommendation is dangerous when its lower-case form contains one of
      the keywords. */
  predicate Dangerous(rec: string) {
    exists k :: k in DangerousKeywords && Contains(Lower(rec), k)
  }

  /** The filtered recommendation list: the safe entries in their order;
      None when an entry is not a string (`rec.lower()` raises, and the
      generator returns None). */
  function Filtered(recs: seq<Json>): (r: Option<seq<Json>>)
    ensures r.Some? ==> |r.value| <= |recs|
  {
    if recs == [] then Some([])
    else
      var last := recs[|recs| - 1];
      var p := Filtered(recs[..|recs| - 1]);
      if !last.JString? || p.None? then None
      else Some(p.value + (if Dangerous(last.text) then [] else [last]))
  }

  /** Filtering fails exactly when some entry is not a string, and otherwise
      keeps exactly the safe strings. */
  lemma {:induction false} FilteredMeaning(recs: seq<Json>)
    ensures Filtered(recs).None? <==> exists i :: 0 <= i < |recs| && !recs[i].JString?
    ensures Filtered(recs).Some? ==> forall x :: x in Filtered(recs).value <==> x in recs && x.JString? && !Dangerous(x.text)
    decreases |recs|
  {
    if recs != [] {
      var t := recs[..|recs| - 1];
      FilteredMeaning(t);
      assert recs == t + [recs[|recs| - 1]];
      if exists i :: 0 <= i < |recs| && !recs[i].JString? {
        var i :| 0 <= i < |recs| && !recs[i].JString?;
        if i < |t| {
          assert !t[i].JString?;
        }
      }
      if exists i :: 0 <= i < |t| && !t[i].JString? {
        var i :| 0 <= i < |t| && !t[i].JString?;
        assert !recs[i].JString?;
      }
    }
  }

  /** Filtering distributes over concatenation, so kept entries keep their order. */
  lemma {:induction false} FilteredAppend(a: seq<Json>, b: seq<Json>)
    requires Filtered(a).Some? && Filtered(b).Some?
    ensures Filtered(a + b) == Some(Filtered(a).value + Filtered(b).value)
    decreases |b|
  {
    if b == [] {
      assert a + b == a;
      assert Filtered(a).value + [] == Filtered(a).value;
    } else {
      var t := b[..|b| - 1];
      assert (a + b)[..|a + b| - 1] == a + t;
      assert (a + b)[|a + b| - 1] == b[|b| - 1];
      assert Filtered(t).Some? by {
        assert b == t + [b[|b| - 1]];
        assert Filtered(b) != None;
      }
      FilteredAppend(a, t);
      var fa, ft := Filtered(a).value, Filtered(t).value;
      var x := b[|b| - 1];
      var tail := if Dangerous(x.text) then [] else [x];
      assert Filtered(b).value == ft + tail;
      assert Filtered(a + b).value == (fa + ft) + tail;
      assert (fa + ft) + tail == fa + (ft + tail);
    }
  }

  /** The new value of one expected key: a missing or non-list value becomes
      []; the recommendations list is filtered and, when nothing is left,
      holds the generic advice alone; any other list stays. */
  function NormalisedValue(m: map<string, Json>, key: string): Option<Json> {
    if key !in m || !m[key].JList? then Some(JList([]))
    else if key == RecommendationsKey then
      match Filtered(m[key].items)
      case None => None
      case Some(kept) => Some(JList(if kept == [] then [JString(GenericAdvice)] else kept))
    else Some(m[key])
  }

  function NormaliseOver(m: map<string, Json>, keys: seq<string>): Option<map<string, Json>> {
    if keys == [] then Some(m)
    else
      match NormaliseOver(m, keys[..|keys| - 1])
      case None => None
      case Some(m') =>
        match NormalisedValue(m', keys[|keys| - 1])
        case None => None
        case Some(v) => Some(m'[keys[|keys| - 1] := v])
  }

  /** The checks on the parsed JSON object. */
  function Normalise(m: map<string, Json>): Option<map<string, Json>> {
    NormaliseOver(m, ExpectedKeys)
  }

  predicate Distinct(keys: seq<string>) {
    forall i, j :: 0 <= i < j < |keys| ==> keys[i] != keys[j]
  }

  /** Walking distinct keys gives each one its own new value, computed from
      the original object, and leaves every other entry alone. */
  lemma {:induction false} NormaliseOverMeaning(m: map<string, Json>, keys: seq<string>)
    requires Distinct(keys)
    ensures NormaliseOver(m, keys).None? <==> exists i :: 0 <= i < |keys| && NormalisedValue(m, keys[i]).None?
    ensures var r := NormaliseOver(m, keys);
            r.Some? ==>
              (forall k :: k in r.value <==> k in m || k in keys)
              && (forall i :: 0 <= i < |keys| ==> r.value[keys[i]] == NormalisedValue(m, keys[i]).value)
              && (forall k :: k in m && k !in keys ==> r.value[k] == m[k])
    decreases |keys|
  {
    if keys != [] {
      var t := keys[..|keys| - 1];
      var last := keys[|keys| - 1];
      assert Distinct(t);
      NormaliseOverMeaning(m, t);
      var p := NormaliseOver(m, t);
      if p.Some? {
        assert last !in t;
        assert (last in p.value) == (last in m);
        assert last in m ==> p.value[last] == m[last];
        assert NormalisedValue(p.value, last) == NormalisedValue(m, last);
        forall k | k in keys
          ensures k in t || k == last
        {
          var i :| 0 <= i < |keys| && keys[i] == k;
          if i < |t| {
            assert t[i] == k;
          }
        }
      }
      if exists i :: 0 <= i < |keys| && NormalisedValue(m, keys[i]).None? {
        var i :| 0 <= i < |keys| && NormalisedValue(m, keys[i]).None?;
        if i < |t| {
          assert t[i] == keys[i];
        }
      }
    }
  }

  /** After the checks every expected key holds a list: [] when it was missing
      or not a list; the safe recommendations in order, or the generic advice
      alone when none is safe; any other list unchanged.  Other keys are kept
      as they were.  The checks fail only on a non-string recommendation. */
  lemma {:induction false} NormaliseMeaning(m: map<string, Json>)
    ensures Normalise(m).None? <==>
              RecommendationsKey in m && m[RecommendationsKey].JList? && Filtered(m[RecommendationsKey].items).None?
    ensures var r := Normalise(m);
            r.Some? ==>
              (forall k :: k in r.value <==> k in m || k in ExpectedKeys)
              && (forall k :: k in ExpectedKeys ==> r.value[k].JList?)
              && (forall k :: k in ExpectedKeys && (k !in m || !m[k].JList?) ==> r.value[k] == JList([]))
              && (forall k :: k in ExpectedKeys && k != RecommendationsKey && k in m && m[k].JList? ==> r.value[k] == m[k])
              && (forall k :: k in m && k !in ExpectedKeys ==> r.value[k] == m[k])
    ensures var r := Normalise(m);
            r.Some? && RecommendationsKey in m && m[RecommendationsKey].JList? ==>
              var kept := Filtered(m[RecommendationsKey].items).value;
              r.value[RecommendationsKey] == JList(if kept == [] then [JString(GenericAdvice)] else kept)
  {
    var keys := ExpectedKeys;
    assert Distinct(keys);
    NormaliseOverMeaning(m, keys);
    var r := Normalise(m);
    if r.Some? {
      forall k | k in keys
        ensures r.value[k] == NormalisedValue(m, k).value
      {
        var i :| 0 <= i < |keys| && keys[i] == k;
      }
    }
    if Normalise(m).None? {
      var i :| 0 <= i < |keys| && NormalisedValue(m, keys[i]).None?;
      assert keys[i] == RecommendationsKey;
    }
    if RecommendationsKey in m && m[RecommendationsKey].JList? && Filtered(m[RecommendationsKey].items).None? {
      assert keys[0] == RecommendationsKey;
      assert NormalisedValue(m, keys[0]).None?;
    }
  }

  /** The keyword scan of one recommendation, stopping at the first hit. */
  method IsDangerous(rec: string) returns (hit: bool)
    ensures hit == Dangerous(rec)
  {
    var lowered := Lower(rec);
    hit := false;
    var i := 0;
    while i < |DangerousKeywords|
      invariant 0 <= i <= |DangerousKeywords|
      invariant !hit ==> forall j :: 0 <= j < i ==> !Contains(lowered, DangerousKeywords[j])
      invariant hit ==> Dangerous(rec)
    {
      if Contains(lowered, DangerousKeywords[i]) {
        hit := true;
        break;
      }
      i := i + 1;
    }
    if !hit {
      forall k | k in DangerousKeywords
        ensures !Contains(lowered, k)
      {
        var j :| 0 <= j < |DangerousKeywords| && DangerousKeywords[j] == k;
      }
    }
  }

  /** `filtered_recommendations`, built by appending the safe entries. */
  method FilterRecommendations(recs: seq<Json>) returns (r: Option<seq<Json>>)
    ensures r == Filtered(recs)
  {
    var kept: seq<Json> := [];
    var i := 0;
    while i < |recs|
      invariant 0 <= i <= |recs|
      invariant Filtered(recs[..i]) == Some(kept)
    {
      var rec := recs[i];
      assert recs[..i + 1][..i] == recs[..i];
      assert recs[..i + 1][i] == rec;
      if !rec.JString? {
        FilteredPrefixFails(recs, i + 1);
        return None;
      }
      var dangerous := IsDangerous(rec.text);
      assert Filtered(recs[..i + 1]) == Some(kept + (if dangerous then [] else [rec]));
      if !dangerous {
        kept := kept + [rec];
      } else {
        assert kept + [] == kept;
      }
      i := i + 1;
    }
    assert recs[..i] == recs;
    return Some(kept);
  }

  /** A failing prefix makes the whole list fail. */
  lemma FilteredPrefixFails(recs: seq<Json>, n: int)
    requires 0 <= n <= |recs| && Filtered(recs[..n]).None?
    ensures Filtered(recs).None?
  {
    FilteredMeaning(recs[..n]);
    FilteredMeaning(recs);
    var i :| 0 <= i < n && !recs[..n][i].JString?;
    assert !recs[i].JString?;
  }

  /** Once a key fails, the walk fails. */
  lemma {:induction false} NormalisePrefixFails(m: map<string, Json>, keys: seq<string>, n: int)
    requires 0 <= n <= |keys| && NormaliseOver(m, keys[..n]).None?
    ensures NormaliseOver(m, keys).None?
    decreases |keys| - n
  {
    if n < |keys| {
      assert keys[..n + 1][..n] == keys[..n];
      NormalisePrefixFails(m, keys, n + 1);
    } else {
      assert keys[..n] == keys;
    }
  }

  /** The key loop of the reply checks, updating the object key by key. */
  method NormaliseInsight(data: map<string, Json>) returns (r: Option<map<string, Json>>)
    ensures r == Normalise(data)
  {
    var m := data;
    var i := 0;
    while i < |ExpectedKeys|
      invariant 0 <= i <= |ExpectedKeys|
      invariant NormaliseOver(data, ExpectedKeys[..i]) == Some(m)
    {
      var key := ExpectedKeys[i];
      assert ExpectedKeys[..i + 1][..i] == ExpectedKeys[..i] && ExpectedKeys[..i + 1][i] == key;
      if key !in m || !m[key].JList? {
        m := m[key := JList([])];
      } else if key == RecommendationsKey {
        var kept := FilterRecommendations(m[key].items);
        if kept.None? {
          NormalisePrefixFails(data, ExpectedKeys, i + 1);
          return None;
        }
        var list := kept.value;
        if list == [] {
          list := [JString(GenericAdvice)];
        }
        m := m[key := JList(list)];
      } else {
        assert m[key := m[key]] == m;
      }
      i := i + 1;
    }
    assert ExpectedKeys[..i] == ExpectedKeys;
    return Some(m);
  }

  /** `period.value.title()`. */
  function PeriodTitle(p: Period): string {
    match p
    case Daily => "Daily"
    case Weekly => "Weekly"
    case Monthly => "Monthly"
    case Other(v) => v
  }

  /** What the language-model call gave back, with the regular-expression and
      JSON decoding already applied: the call failed, the reply was empty, or
      the text had these optional title and summary lines and this optional
      JSON block (None when the block is missing or does not decode). */
  datatype Reply = CallFailed | EmptyReply | Parsed(titleLine: Option<string>, summaryLine: Option<string>, block: Option<Json>)

  datatype Draft = Draft(userId: int, period: Period, start: Day, end: Day, title: string, summary: string, data: map<string, Json>)

  /** `generate_insight`: raises on an unknown period or while formatting the
      schedule lists, returns None on every failure after that, and
      otherwise the insight it would save. */
  datatype Outcome = InsightRaised(failure: Failure) | NoInsight | Generated(draft: Draft)

  /** A schedule the prompt lists has no end: its line formats
      `s.end_date.strftime(...)` on None, which raises AttributeError. */
  predicate OpenEndedListed(rows: seq<CheckSchedule>, s: Day, e: Day) {
    exists x :: x in ListedSchedules(rows, s, e) && x.endDate.None?
  }

  /** `generate_insight` for the user's BP and sugar schedules.  The schedule
      lists are formatted when the prompt is built, before the guarded call
      to the language model, so a listed open-ended schedule escapes. */
  function GenerateInsight(userId: int, period: Period, start: Day, bpSchedules: seq<CheckSchedule>,
                           sugarSchedules: seq<CheckSchedule>, reply: Reply): Outcome {
    match InsightEnd(period, start)
    case Err(f) => InsightRaised(f)
    case Ok(end) =>
      if OpenEndedListed(bpSchedules, start, end) || OpenEndedListed(sugarSchedules, start, end) then
        InsightRaised(Raised("AttributeError"))
      else if !reply.Parsed? || reply.block.None? || !reply.block.value.JObject? then NoInsight
      else
        match Normalise(reply.block.value.fields)
        case None => NoInsight
        case Some(data) =>
          var title := if reply.titleLine.Some? then Strip(reply.titleLine.value) else PeriodTitle(period) + " Health Insight";
          var summary := if reply.summaryLine.Some? then Strip(reply.summaryLine.value) else DefaultSummary;
          Generated(Draft(userId, period, start, end, title, summary, data))
  }

  /** An unknown period raises ValueError; a known one raises AttributeError
      exactly when an active, open-ended BP or sugar schedule overlaps the
      window.  Otherwise an insight is produced exactly when the reply parsed
      into a JSON object and the checks pass; it covers the period's window;
      a missing title or summary line gives the default text, a present one
      its stripped text; and every expected key of its data holds a list. */
  lemma {:induction false} GenerateInsightMeaning(userId: int, period: Period, start: Day, bp: seq<CheckSchedule>,
                                                  sugar: seq<CheckSchedule>, reply: Reply)
    ensures var o := GenerateInsight(userId, period, start, bp, sugar, reply);
            period.Other? ==> o == InsightRaised(Raised("ValueError"))
    ensures var o := GenerateInsight(userId, period, start, bp, sugar, reply);
            !period.Other? ==>
              var e := PeriodEnd(period, start).value;
              var open := exists x :: (x in bp || x in sugar) && Overlaps(x, start, e) && x.endDate.None?;
              (o.InsightRaised? <==> open)
              && (open ==> o == InsightRaised(Raised("AttributeError")))
              && (o.Generated? <==> !open && reply.Parsed? && reply.block.Some? && reply.block.value.JObject?
                                    && Normalise(reply.block.value.fields).Some?)
    ensures var o := GenerateInsight(userId, period, start, bp, sugar, reply);
            o.Generated? ==>
              o.draft.userId == userId && o.draft.start == start
              && Some(o.draft.end) == PeriodEnd(period, start) && start <= o.draft.end
              && (reply.titleLine.None? ==> o.draft.title == PeriodTitle(period) + " Health Insight")
              && (reply.titleLine.Some? ==> o.draft.title == Strip(reply.titleLine.value))
              && (reply.summaryLine.None? ==> o.draft.summary == DefaultSummary)
              && (reply.summaryLine.Some? ==> o.draft.summary == Strip(reply.summaryLine.value))
              && (forall k :: k in ExpectedKeys ==> k in o.draft.data && o.draft.data[k].JList?)
  {
    PeriodEndMeaning(period, start);
    if reply.Parsed? && reply.block.Some? && reply.block.value.JObject? {
      NormaliseMeaning(reply.block.value.fields);
    }
  }
}
