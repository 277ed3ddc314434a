/** The order the alert route returns its alerts in: `alerts.sort(key=...)`
    with the key (tag priority, minus the timestamp read back from the "date"
    and "time" fields, ""), where a field pair that does not parse ranks last.
    Python's sort is stable; the model is an insertion sort that places each
    alert after every earlier alert whose key is not larger. */
module AlertOrder {
  import opened Wrappers
  import opened Calendar
  import opened AlertRecords

  /** The `%y` pivot of `strptime`: 69-99 mean 1969-1999, 00-68 mean 2000-2068. */
  function PivotYear(yy: int): (y: int)
    ensures 0 <= yy < 100 ==> y % 100 == yy && 1969 <= y <= 2068
  {
    if yy >= 69 then 1900 + yy else 2000 + yy
  }

  /** Seconds of a naive date and time of day, from a fixed origin (the
      timestamp up to the constant offset of the local zone). */
  function Seconds(d: Day, hour: int, minute: int): int {
    d * 86400 + hour * 3600 + minute * 60
  }

  /** The date written by `%m/%d/%y` and read back by `strptime`. */
  function ReadBack(d: Day): Date {
    var c := Civil(d);
    Date(PivotYear(c.year % 100), c.month, c.day)
  }

  /** `strptime(f"{date} {time}", "%m/%d/%y %I:%M %p").timestamp()`: the ISO
      forms never parse, and the seconds are lost. */
  function ParseStamp(date: DateText, time: TimeText): (r: Option<int>)
    ensures r.Some? ==> date.MonthDayYear? && time.HourMinuteMeridiem?
  {
    if date.MonthDayYear? && time.HourMinuteMeridiem? && ValidDate(ReadBack(date.day)) then
      Some(Seconds(Ordinal(ReadBack(date.day)), time.clock.hour, time.clock.minute))
    else None
  }

  lemma LeapAcrossCenturies(y: int)
    requires IsLeap(y)
    ensures IsLeap(PivotYear(y % 100))
  {
    var q := y / 100;
    var r := y % 100;
    assert y == 100 * q + r;
    assert 100 * q == 4 * (25 * q);
    assert r % 4 == 0;
  }

  /** Reading back a two-digit year never yields an impossible date: a
      29 February stays in a leap year. */
  lemma {:induction false} ReadBackValid(d: Day)
    ensures ValidDate(ReadBack(d))
  {
    var c := Civil(d);
    if c.month == 2 && c.day == 29 {
      LeapAcrossCenturies(c.year);
    }
  }

  /** Exactly the month/day/year date with the 12-hour clock parses. */
  lemma {:induction false} ParseStampDefined(date: DateText, time: TimeText)
    ensures ParseStamp(date, time).Some? <==> date.MonthDayYear? && time.HourMinuteMeridiem?
  {
    if date.MonthDayYear? {
      ReadBackValid(date.day);
    }
  }

  /** Seconds order days first, then hours, then minutes. */
  lemma SecondsOrder(d1: Day, h1: int, m1: int, d2: Day, h2: int, m2: int)
    requires 0 <= h1 < 24 && 0 <= m1 < 60 && 0 <= h2 < 24 && 0 <= m2 < 60
    ensures Seconds(d1, h1, m1) < Seconds(d2, h2, m2) <==> d1 < d2 || (d1 == d2 && (h1 < h2 || (h1 == h2 && m1 < m2)))
  {
    var w1 := h1 * 3600 + m1 * 60;
    var w2 := h2 * 3600 + m2 * 60;
    assert 0 <= w1 <= 86340 && 0 <= w2 <= 86340;
    assert Seconds(d2, h2, m2) - Seconds(d1, h1, m1) == (d2 - d1) * 86400 + (w2 - w1);
    if d1 < d2 {
      assert (d2 - d1) * 86400 >= 86400;
    } else if d2 < d1 {
      assert (d1 - d2) * 86400 >= 86400;
    } else {
      assert w2 - w1 == (h2 - h1) * 3600 + (m2 - m1) * 60;
      if h1 < h2 {
        assert (h2 - h1) * 3600 >= 3600;
      } else if h2 < h1 {
        assert (h1 - h2) * 3600 >= 3600;
      }
    }
  }

  lemma PivotInverse(y: int)
    requires 1969 <= y <= 2068
    ensures PivotYear(y % 100) == y
  {
    if y < 2000 {
      assert y % 100 == y - 1900;
    } else {
      assert y % 100 == y - 2000;
    }
  }

  /** Between 1969 and 2068 the year survives the round trip. */
  lemma {:induction false} ReadBackIdentity(d: Day)
    requires 1969 <= Civil(d).year <= 2068
    ensures ReadBack(d) == Civil(d)
  {
    PivotInverse(Civil(d).year);
  }

  /** Between 1969 and 2068 the parsed stamp orders alerts by their real date
      and minute. */
  lemma {:induction false} StampChronological(d1: Day, c1: Clock, d2: Day, c2: Clock)
    requires ValidClock(c1) && ValidClock(c2)
    requires 1969 <= Civil(d1).year <= 2068 && 1969 <= Civil(d2).year <= 2068
    ensures ParseStamp(MonthDayYear(d1), HourMinuteMeridiem(c1)) == Some(Seconds(d1, c1.hour, c1.minute))
    ensures ParseStamp(MonthDayYear(d2), HourMinuteMeridiem(c2)) == Some(Seconds(d2, c2.hour, c2.minute))
    ensures Seconds(d1, c1.hour, c1.minute) < Seconds(d2, c2.hour, c2.minute) <==>
              d1 < d2 || (d1 == d2 && (c1.hour < c2.hour || (c1.hour == c2.hour && c1.minute < c2.minute)))
  {
    ReadBackIdentity(d1);
    ReadBackIdentity(d2);
    SecondsOrder(d1, c1.hour, c1.minute, d2, c2.hour, c2.minute);
  }

  datatype Rank = Finite(value: int) | Unparsable

  datatype SortKey = SortKey(priority: int, rank: Rank)

  function TagPriority(t: Tag): int {
    if t == Emergency then 0 else 1
  }

  function KeyOf(a: Alert): SortKey {
    SortKey(TagPriority(a.tag),
            match ParseStamp(a.date, a.time)
            case Some(t) => Finite(-t)
            case None => Unparsable)
  }

  /** The tuple order: a finite rank below infinity, the finite ranks by
      value; the constant third component never decides. */
  predicate RankLe(a: Rank, b: Rank) {
    b.Unparsable? || (a.Finite? && a.value <= b.value)
  }

  predicate KeyLe(a: SortKey, b: SortKey) {
    a.priority < b.priority || (a.priority == b.priority && RankLe(a.rank, b.rank))
  }

  lemma KeyLeTotal(a: SortKey, b: SortKey)
    ensures KeyLe(a, b) || KeyLe(b, a)
    ensures KeyLe(a, b) && KeyLe(b, a) ==> a == b
  {
  }

  lemma KeyLeTransitive(a: SortKey, b: SortKey, c: SortKey)
    requires KeyLe(a, b) && KeyLe(b, c)
    ensures KeyLe(a, c)
  {
  }

  /** An alert with its key, computed once as `sort(key=...)` does. */
  datatype Entry = Entry(key: SortKey, alert: Alert)

  function Decorate(s: seq<Alert>): (r: seq<Entry>)
    ensures |r| == |s|
    ensures forall i :: 0 <= i < |s| ==> r[i] == Entry(KeyOf(s[i]), s[i])
  {
    if s == [] then [] else Decorate(s[..|s| - 1]) + [Entry(KeyOf(s[|s| - 1]), s[|s| - 1])]
  }

  function Undecorate(s: seq<Entry>): (r: seq<Alert>)
    ensures |r| == |s|
    ensures forall i :: 0 <= i < |s| ==> r[i] == s[i].alert
  {
    if s == [] then [] else Undecorate(s[..|s| - 1]) + [s[|s| - 1].alert]
  }

  predicate Sorted(s: seq<Entry>) {
    forall i, j :: 0 <= i < j < |s| ==> KeyLe(s[i].key, s[j].key)
  }

  /** Places `x` after the longest suffix of `s` whose keys exceed its own. */
  function Insert(x: Entry, s: seq<Entry>): (r: seq<Entry>)
    ensures multiset(r) == multiset(s) + multiset{x}
    ensures |r| == |s| + 1
  {
    if s == [] then [x]
    else if KeyLe(s[|s| - 1].key, x.key) then s + [x]
    else
      var last := s[|s| - 1];
      assert s == s[..|s| - 1] + [last];
      Insert(x, s[..|s| - 1]) + [last]
  }

  function SortEntries(s: seq<Entry>): (r: seq<Entry>)
    ensures multiset(r) == multiset(s)
    ensures |r| == |s|
  {
    if s == [] then []
    else
      assert s == s[..|s| - 1] + [s[|s| - 1]];
      Insert(s[|s| - 1], SortEntries(s[..|s| - 1]))
  }

  /** The list `alerts.sort(key=alert_sort_key)` leaves behind. */
  function SortAlerts(s: seq<Alert>): seq<Alert> {
    Undecorate(SortEntries(Decorate(s)))
  }

  /** The entries of `s` whose key is `k`, in their order in `s`. */
  function WithKey(s: seq<Entry>, k: SortKey): (r: seq<Entry>)
    ensures |r| <= |s|
  {
    if s == [] then []
    else
      var last := s[|s| - 1];
      WithKey(s[..|s| - 1], k) + (if last.key == k then [last] else [])
  }

  lemma {:induction false} InsertSorted(x: Entry, s: seq<Entry>)
    requires Sorted(s)
    ensures Sorted(Insert(x, s))
    decreases |s|
  {
    if s == [] {
    } else if KeyLe(s[|s| - 1].key, x.key) {
      forall i | 0 <= i < |s|
        ensures KeyLe(s[i].key, x.key)
      {
        if i < |s| - 1 {
          KeyLeTransitive(s[i].key, s[|s| - 1].key, x.key);
        }
      }
    } else {
      var t := s[..|s| - 1];
      var last := s[|s| - 1];
      InsertSorted(x, t);
      var u := Insert(x, t);
      KeyLeTotal(last.key, x.key);
      forall i | 0 <= i < |u|
        ensures KeyLe(u[i].key, last.key)
      {
        assert u[i] in multiset(u);
        if u[i] != x {
          assert u[i] in multiset(t);
          var k :| 0 <= k < |t| && t[k] == u[i];
          assert s[k] == u[i];
        }
      }
      var r := u + [last];
      forall i, j | 0 <= i < j < |r|
        ensures KeyLe(r[i].key, r[j].key)
      {
        if j < |u| {
          assert r[i] == u[i] && r[j] == u[j];
        }
      }
    }
  }

  lemma {:induction false} SortEntriesSorted(s: seq<Entry>)
    ensures Sorted(SortEntries(s))
    decreases |s|
  {
    if s != [] {
      SortEntriesSorted(s[..|s| - 1]);
      InsertSorted(s[|s| - 1], SortEntries(s[..|s| - 1]));
    }
  }

  lemma {:induction false} WithKeyInsert(x: Entry, s: seq<Entry>, k: SortKey)
    requires Sorted(s)
    ensures WithKey(Insert(x, s), k) == WithKey(s, k) + (if x.key == k then [x] else [])
    decreases |s|
  {
    if s == [] {
      assert WithKey([x], k) == WithKey([], k) + (if x.key == k then [x] else []);
    } else if KeyLe(s[|s| - 1].key, x.key) {
      assert (s + [x])[..|s|] == s;
    } else {
      var t := s[..|s| - 1];
      var last := s[|s| - 1];
      WithKeyInsert(x, t, k);
      var u := Insert(x, t);
      assert (u + [last])[..|u|] == u;
      KeyLeTotal(last.key, x.key);
    }
  }

  /** Stability: the entries that share a key leave the sort in the order
      they entered it. */
  lemma {:induction false} SortEntriesStable(s: seq<Entry>, k: SortKey)
    ensures WithKey(SortEntries(s), k) == WithKey(s, k)
    decreases |s|
  {
    if s != [] {
      var t := s[..|s| - 1];
      SortEntriesStable(t, k);
      SortEntriesSorted(t);
      WithKeyInsert(s[|s| - 1], SortEntries(t), k);
    }
  }

  /** Every entry carries the key of its own alert. */
  predicate Honest(s: seq<Entry>) {
    forall i :: 0 <= i < |s| ==> s[i].key == KeyOf(s[i].alert)
  }

  /** The alerts of `s` whose key is `k`, in their order in `s`. */
  function AlertsWithKey(s: seq<Alert>, k: SortKey): seq<Alert> {
    if s == [] then []
    else
      var last := s[|s| - 1];
      AlertsWithKey(s[..|s| - 1], k) + (if KeyOf(last) == k then [last] else [])
  }

  /** The reminders of `s`, in their order in `s`. */
  function Reminders(s: seq<Alert>): seq<Alert> {
    if s == [] then []
    else
      var last := s[|s| - 1];
      Reminders(s[..|s| - 1]) + (if last.tag == Reminder then [last] else [])
  }

  lemma UndecorateSnoc(v: seq<Entry>, e: Entry)
    ensures multiset(Undecorate(v + [e])) == multiset(Undecorate(v)) + multiset{e.alert}
  {
    assert Undecorate(v + [e]) == Undecorate(v) + [e.alert];
  }

  lemma {:induction false} UndecorateInsert(x: Entry, t: seq<Entry>)
    ensures multiset(Undecorate(Insert(x, t))) == multiset(Undecorate(t)) + multiset{x.alert}
    decreases |t|
  {
    if t == [] {
    } else if KeyLe(t[|t| - 1].key, x.key) {
      UndecorateSnoc(t, x);
    } else {
      var u := t[..|t| - 1];
      var last := t[|t| - 1];
      assert t == u + [last];
      UndecorateInsert(x, u);
      UndecorateSnoc(Insert(x, u), last);
      UndecorateSnoc(u, last);
    }
  }

  lemma {:induction false} UndecorateSortEntries(e: seq<Entry>)
    ensures multiset(Undecorate(SortEntries(e))) == multiset(Undecorate(e))
    decreases |e|
  {
    if e != [] {
      var t := e[..|e| - 1];
      assert e == t + [e[|e| - 1]];
      UndecorateSortEntries(t);
      UndecorateInsert(e[|e| - 1], SortEntries(t));
      UndecorateSnoc(t, e[|e| - 1]);
    }
  }

  /** The sort returns a rearrangement of its input. */
  lemma {:induction false} SortAlertsPermutation(s: seq<Alert>)
    ensures multiset(SortAlerts(s)) == multiset(s)
    ensures |SortAlerts(s)| == |s|
  {
    UndecorateSortEntries(Decorate(s));
    UndecorateDecorate(s);
  }

  lemma {:induction false} SortedEntriesHonest(s: seq<Alert>)
    ensures Honest(SortEntries(Decorate(s)))
  {
    var d := Decorate(s);
    var r := SortEntries(d);
    forall i | 0 <= i < |r|
      ensures r[i].key == KeyOf(r[i].alert)
    {
      assert r[i] in multiset(r);
      assert r[i] in multiset(d);
      var k :| 0 <= k < |d| && d[k] == r[i];
    }
  }

  /** Keys never decrease along the returned list. */
  lemma {:induction false} SortAlertsSorted(s: seq<Alert>)
    ensures forall i, j :: 0 <= i < j < |SortAlerts(s)| ==>
              KeyLe(KeyOf(SortAlerts(s)[i]), KeyOf(SortAlerts(s)[j]))
  {
    var r := SortEntries(Decorate(s));
    SortEntriesSorted(Decorate(s));
    SortedEntriesHonest(s);
    assert forall i :: 0 <= i < |r| ==> SortAlerts(s)[i] == r[i].alert;
  }

  lemma {:induction false} HonestWithKey(e: seq<Entry>, k: SortKey)
    requires Honest(e)
    ensures Undecorate(WithKey(e, k)) == AlertsWithKey(Undecorate(e), k)
    decreases |e|
  {
    if e != [] {
      var t := e[..|e| - 1];
      var last := e[|e| - 1];
      assert Honest(t) by {
        forall i | 0 <= i < |t| ensures t[i].key == KeyOf(t[i].alert) {
          assert t[i] == e[i];
        }
      }
      HonestWithKey(t, k);
      var tail := if last.key == k then [last] else [];
      assert WithKey(e, k) == WithKey(t, k) + tail;
      UndecorateAppend(WithKey(t, k), tail);
      assert Undecorate(e)[..|e| - 1] == Undecorate(t);
      assert Undecorate(e)[|e| - 1] == last.alert;
      assert last.key == KeyOf(last.alert);
    }
  }

  lemma UndecorateAppend(a: seq<Entry>, b: seq<Entry>)
    ensures Undecorate(a + b) == Undecorate(a) + Undecorate(b)
  {
    var l := Undecorate(a + b);
    var r := Undecorate(a) + Undecorate(b);
    assert |l| == |r|;
    forall i | 0 <= i < |l| ensures l[i] == r[i] {
      if i < |a| {
        assert (a + b)[i] == a[i];
      } else {
        assert (a + b)[i] == b[i - |a|];
      }
    }
  }

  lemma {:induction false} UndecorateDecorate(s: seq<Alert>)
    ensures Undecorate(Decorate(s)) == s
    ensures Honest(Decorate(s))
  {
  }

  /** Stability at the level of alerts: alerts of equal key keep their order. */
  lemma {:induction false} SortAlertsStable(s: seq<Alert>, k: SortKey)
    ensures AlertsWithKey(SortAlerts(s), k) == AlertsWithKey(s, k)
  {
    var d := Decorate(s);
    SortedEntriesHonest(s);
    HonestWithKey(SortEntries(d), k);
    SortEntriesStable(d, k);
    UndecorateDecorate(s);
    HonestWithKey(d, k);
  }

  /** When every reminder has the unparsable ISO fields, its key is (1, inf);
      the reminders are then exactly the alerts of that key. */
  predicate RemindersUnparsable(s: seq<Alert>) {
    forall i :: 0 <= i < |s| && s[i].tag == Reminder ==> ParseStamp(s[i].date, s[i].time).None?
  }

  lemma {:induction false} RemindersAreOneKey(s: seq<Alert>)
    requires RemindersUnparsable(s)
    ensures Reminders(s) == AlertsWithKey(s, SortKey(1, Unparsable))
    decreases |s|
  {
    if s != [] {
      RemindersAreOneKey(s[..|s| - 1]);
    }
  }

  /** What the route's sort promises: every emergency precedes every
      reminder; among emergencies, and among reminders, a newer parsed
      stamp comes first and an unparsable one comes last; and reminders
      with ISO fields keep the order in which they were generated. */
  lemma {:induction false} SortAlertsOrder(s: seq<Alert>)
    ensures var r := SortAlerts(s);
            forall i, j :: 0 <= i < j < |r| ==> !(r[i].tag == Reminder && r[j].tag == Emergency)
    ensures var r := SortAlerts(s);
            forall i, j :: 0 <= i < j < |r| && r[i].tag == r[j].tag ==>
              (ParseStamp(r[j].date, r[j].time).Some? ==>
                 ParseStamp(r[i].date, r[i].time).Some?
                 && ParseStamp(r[i].date, r[i].time).value >= ParseStamp(r[j].date, r[j].time).value)
    ensures RemindersUnparsable(s) ==> Reminders(SortAlerts(s)) == Reminders(s)
  {
    SortAlertsPairs(s);
    if RemindersUnparsable(s) {
      SortAlertsKeepsReminders(s);
    }
  }

  /** What one step of the order says about two alerts. */
  lemma KeyLeMeaning(a: Alert, b: Alert)
    requires KeyLe(KeyOf(a), KeyOf(b))
    ensures !(a.tag == Reminder && b.tag == Emergency)
    ensures a.tag == b.tag ==>
              (ParseStamp(b.date, b.time).Some? ==>
                 ParseStamp(a.date, a.time).Some?
                 && ParseStamp(a.date, a.time).value >= ParseStamp(b.date, b.time).value)
  {
  }

  lemma {:induction false} SortAlertsPairs(s: seq<Alert>)
    ensures var r := SortAlerts(s);
            forall i, j :: 0 <= i < j < |r| ==> !(r[i].tag == Reminder && r[j].tag == Emergency)
    ensures var r := SortAlerts(s);
            forall i, j :: 0 <= i < j < |r| && r[i].tag == r[j].tag ==>
              (ParseStamp(r[j].date, r[j].time).Some? ==>
                 ParseStamp(r[i].date, r[i].time).Some?
                 && ParseStamp(r[i].date, r[i].time).value >= ParseStamp(r[j].date, r[j].time).value)
  {
    var r := SortAlerts(s);
    SortAlertsSorted(s);
    forall i, j | 0 <= i < j < |r|
      ensures !(r[i].tag == Reminder && r[j].tag == Emergency)
      ensures r[i].tag == r[j].tag ==>
                (ParseStamp(r[j].date, r[j].time).Some? ==>
                   ParseStamp(r[i].date, r[i].time).Some?
                   && ParseStamp(r[i].date, r[i].time).value >= ParseStamp(r[j].date, r[j].time).value)
    {
      KeyLeMeaning(r[i], r[j]);
    }
  }

  lemma {:induction false} SortAlertsKeepsReminders(s: seq<Alert>)
    requires RemindersUnparsable(s)
    ensures Reminders(SortAlerts(s)) == Reminders(s)
  {
    var r := SortAlerts(s);
    SortAlertsPermutation(s);
    assert RemindersUnparsable(r) by {
      forall i | 0 <= i < |r| && r[i].tag == Reminder
        ensures ParseStamp(r[i].date, r[i].time).None?
      {
        assert r[i] in multiset(r);
        assert r[i] in multiset(s);
        var k :| 0 <= k < |s| && s[k] == r[i];
      }
    }
    RemindersAreOneKey(s);
    RemindersAreOneKey(r);
    SortAlertsStable(s, SortKey(1, Unparsable));
  }
}
