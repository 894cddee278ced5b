/** The guided activity page: a static table of activity definitions looked
    up by the id in the URL, and the per-visit protocol checklist with its
    completion percentage. */
module CurriculumActivity {
  import opened Wrappers

  datatype Resource = Resource(title: string, kind: string)

  /** An activity definition. The second activity of the table has no
      objectives, protocol, resources or standards, so those are optional. */
  datatype Activity = Activity(
    id: nat,
    title: string,
    subject: string,
    level: string,
    description: string,
    objectives: Option<seq<string>>,
    protocol: Option<seq<string>>,
    resources: Option<seq<Resource>>,
    standards: Option<string>,
    status: string)
  {
    /** `activity.protocol?.length`, with an absent protocol read as no steps. */
    function StepCount(): nat
    {
      match protocol
      case None => 0
      case Some(p) => |p|
    }
  }

  const LocalWaterHealth: Activity := Activity(
    1, "Local Water Health", "Chemistry & Biology", "Grade 9-12",
    "Investigate pH and turbidity in local streams to assess habitat suitability for macroinvertebrates.",
    Some([
      "Understand the relationship between pH, turbidity, and aquatic life.",
      "Collect water samples from local water bodies.",
      "Analyze data to determine ecosystem health."]),
    Some([
      "Locate a safe access point to the stream.",
      "Rinse the collection jar three times with stream water.",
      "Collect the water sample from mid-stream.",
      "Measure pH using the test strip immediately.",
      "Record the data in the CitSciNet app."]),
    Some([
      Resource("Understanding pH in Rivers (Video)", "video"),
      Resource("Macroinvertebrate ID Guide (PDF)", "pdf")]),
    Some("NGSS HS-LS2-7: Design, evaluate, and refine a solution for reducing the impacts of human activities on the environment and biodiversity."),
    "Active")

  const UrbanHeatIsland: Activity := Activity(
    2, "Urban Heat Island Effect", "Physics & Earth Science", "Grade 6-8",
    "Map temperature variations across paved vs. green surfaces in your school neighborhood.",
    None, None, None, None,
    "Coming Soon")

  function DigitChar(d: nat): char
    requires d < 10
  {
    ('0' as int + d) as char
  }

  /** The decimal text of an id, as a template string or a property key
      writes it. */
  function IdText(n: nat): (r: string)
    ensures |r| >= 1
    ensures forall j :: 0 <= j < |r| ==> '0' <= r[j] <= '9'
  {
    if n < 10 then [DigitChar(n)] else IdText(n / 10) + [DigitChar(n % 10)]
  }

  /** `activitiesData[id]`, where `id` is the URL segment. */
  function Lookup(id: string): (r: Option<Activity>)
    ensures r.Some? <==> id == "1" || id == "2"
    ensures r.Some? ==> IdText(r.value.id) == id
  {
    if id == "1" then Some(LocalWaterHealth)
    else if id == "2" then Some(UrbanHeatIsland)
    else None
  }

  // ----- the checklist map -----

  /** `!!checkedSteps[i]`: an absent entry reads as unchecked. */
  function IsChecked(m: map<int, bool>, i: int): (r: bool)
    ensures r ==> i in m
  {
    i in m && m[i]
  }

  /** The map after `toggleStep(i)`: entry `i` becomes the negation of its
      boolean view; every other entry is kept. */
  function Toggled(m: map<int, bool>, i: int): (r: map<int, bool>)
    ensures r.Keys == m.Keys + {i}
    ensures IsChecked(r, i) == !IsChecked(m, i)
    ensures forall j :: j in m && j != i ==> r[j] == m[j]
  {
    m[i := !IsChecked(m, i)]
  }

  /** The checked steps: the keys whose value is true. */
  function CheckedSet(m: map<int, bool>): set<int>
  {
    set k | k in m && m[k]
  }

  /** `Object.values(checkedSteps).filter(Boolean).length`. */
  function CheckedCount(m: map<int, bool>): (r: nat)
    ensures r <= |m|
  {
    SubsetSize(CheckedSet(m), m.Keys);
    |CheckedSet(m)|
  }

  /** The count is 0 exactly when no entry of the map is true. */
  lemma NoneCheckedIffZero(m: map<int, bool>)
    ensures CheckedCount(m) == 0 <==> forall k :: k in m ==> !m[k]
  {
    assert (forall k :: k in m ==> !m[k]) ==> CheckedSet(m) == {};
    assert forall k :: k in m && m[k] ==> k in CheckedSet(m);
  }

  /** A toggle changes the boolean view of exactly one step. */
  lemma ToggleFlipsOnlyThatStep(m: map<int, bool>, i: int)
    ensures forall j :: IsChecked(Toggled(m, i), j) == (if j == i then !IsChecked(m, j) else IsChecked(m, j))
  {
  }

  /** A toggle moves the checked count by exactly one. */
  lemma ToggleCount(m: map<int, bool>, i: int)
    ensures CheckedCount(Toggled(m, i)) == if IsChecked(m, i) then CheckedCount(m) - 1 else CheckedCount(m) + 1
  {
    CheckedSetAfterWrite(m, i, !IsChecked(m, i));
    assert IsChecked(m, i) <==> i in CheckedSet(m);
  }

  /** Writing `b` at `i` adds `i` to the checked steps or removes it, and
      touches no other step. */
  lemma CheckedSetAfterWrite(m: map<int, bool>, i: int, b: bool)
    ensures CheckedSet(m[i := b]) == if b then CheckedSet(m) + {i} else CheckedSet(m) - {i}
  {
  }

  /** Toggling a step twice restores the view of every step and the count;
      the map itself keeps an explicit entry for the step. */
  lemma ToggleTwice(m: map<int, bool>, i: int)
    ensures forall j :: IsChecked(Toggled(Toggled(m, i), i), j) == IsChecked(m, j)
    ensures CheckedCount(Toggled(Toggled(m, i), i)) == CheckedCount(m)
    ensures Toggled(Toggled(m, i), i) == m[i := IsChecked(m, i)]
  {
    ToggleCount(m, i);
    ToggleCount(Toggled(m, i), i);
  }

  /** The protocol indices of an `n`-step activity. */
  function Range(n: nat): (r: set<int>)
    ensures forall k :: k in r <==> 0 <= k < n
    ensures |r| == n
  {
    if n == 0 then {} else Range(n - 1) + {n - 1}
  }

  /** When every key is a protocol index, at most all steps are checked. */
  lemma CountWithinSteps(m: map<int, bool>, n: nat)
    requires forall k :: k in m ==> 0 <= k < n
    ensures CheckedCount(m) <= n
  {
    assert CheckedSet(m) <= Range(n);
    SubsetSize(CheckedSet(m), Range(n));
  }

  lemma SubsetSize(a: set<int>, b: set<int>)
    requires a <= b
    ensures |a| <= |b|
  {
    assert b == a + (b - a);
  }

  // ----- the percentage -----

  /** `Math.round(checked / protocol?.length * 100) || 0`: round half up of
      the exact ratio; with no protocol the ratio is NaN and the `|| 0`
      guard turns it into 0. */
  function ProgressPercent(checked: nat, protocol: Option<seq<string>>): (r: nat)
    ensures protocol.None? ==> r == 0
    ensures protocol.Some? && |protocol.value| > 0 ==>
      var n := |protocol.value|;
      2 * n * r <= 200 * checked + n < 2 * n * (r + 1)
  {
    match protocol
    case None => 0
    case Some(p) => if |p| == 0 then 0 else (200 * checked + |p|) / (2 * |p|)
  }

  /** The percentage lies in [0, 100] whenever no more steps are checked
      than the protocol has; it is 0 with nothing checked and 100 with
      every step checked. */
  lemma ProgressBounded(checked: nat, protocol: Option<seq<string>>)
    requires protocol.Some? ==> checked <= |protocol.value|
    ensures ProgressPercent(checked, protocol) <= 100
    ensures checked == 0 ==> ProgressPercent(checked, protocol) == 0
    ensures protocol.Some? && |protocol.value| > 0 && checked == |protocol.value| ==>
      ProgressPercent(checked, protocol) == 100
  {
    if protocol.Some? && |protocol.value| > 0 {
      RoundedRatioBounds(checked, |protocol.value|);
    }
  }

  lemma RoundedRatioBounds(c: nat, n: nat)
    requires 0 < n && c <= n
    ensures (200 * c + n) / (2 * n) <= 100
    ensures c == 0 ==> (200 * c + n) / (2 * n) == 0
    ensures c == n ==> (200 * c + n) / (2 * n) == 100
  {
    DivLess(200 * c + n, 2 * n, 101);
    if c == 0 {
      DivOf(2 * n, 0, n);
    }
    if c == n {
      DivOf(2 * n, 100, n);
    }
  }

  lemma MulMonotone(d: nat, a: nat, b: nat)
    requires a <= b
    ensures d * a <= d * b
  {
    assert d * b == d * a + d * (b - a);
  }

  lemma DivLess(a: nat, d: nat, k: nat)
    requires 0 < d && a < d * k
    ensures a / d < k
  {
    var q := a / d;
    assert d * q <= a;
    if q >= k {
      MulMonotone(d, k, q);
    }
  }

  lemma DivAtLeast(a: nat, d: nat, k: nat)
    requires 0 < d && d * k <= a
    ensures a / d >= k
  {
    var q := a / d;
    assert a < d * q + d;
    if q < k {
      assert d * (q + 1) == d * q + d;
      MulMonotone(d, q + 1, k);
    }
  }

  lemma DivOf(d: nat, k: nat, r: nat)
    requires r < d
    ensures (d * k + r) / d == k
  {
    assert d * (k + 1) == d * k + d;
    DivLess(d * k + r, d, k + 1);
    DivAtLeast(d * k + r, d, k);
  }

  /** Two of the five water-health steps read as 40 percent. */
  lemma TwoOfFiveIsForty()
    ensures ProgressPercent(2, LocalWaterHealth.protocol) == 40
  {
  }

  /** The urban heat island activity has no protocol: its progress is 0
      whatever the map holds, never NaN. */
  lemma NoProtocolIsZero(m: map<int, bool>)
    ensures ProgressPercent(CheckedCount(m), UrbanHeatIsland.protocol) == 0
  {
  }

  /** Nothing is checked when the page opens. */
  lemma InitiallyNothingChecked(a: Activity)
    ensures forall i :: !IsChecked(map[], i)
    ensures ProgressPercent(CheckedCount(map[]), a.protocol) == 0
  {
    assert CheckedSet(map[]) == {};
  }

  // ----- the page -----

  /** What the page shows: the not-found message alone, or the activity
      with its progress and one checkbox per protocol step. */
  datatype Page = NotFound | ActivityPage(title: string, progress: nat, steps: seq<(string, bool)>)

  function Render(id: string, checkedSteps: map<int, bool>): (r: Page)
    ensures r.NotFound? <==> Lookup(id).None?
    ensures r.ActivityPage? ==>
      && r.title == Lookup(id).value.title
      && |r.steps| == Lookup(id).value.StepCount()
      && r.progress == ProgressPercent(CheckedCount(checkedSteps), Lookup(id).value.protocol)
      && (forall i :: 0 <= i < |r.steps| ==> r.steps[i].1 == IsChecked(checkedSteps, i))
      && (forall i :: 0 <= i < |r.steps| ==> r.steps[i].0 == Lookup(id).value.protocol.value[i])
  {
    match Lookup(id)
    case None => NotFound
    case Some(a) =>
      var steps := match a.protocol
        case None => []
        case Some(p) => seq(|p|, i requires 0 <= i < |p| => (p[i], IsChecked(checkedSteps, i)));
      ActivityPage(a.title, ProgressPercent(CheckedCount(checkedSteps), a.protocol), steps)
  }

  // ----- the page's state -----

  /** The checklist state of one visit to an activity page. */
  class Checklist {
    const activity: Activity
    var checkedSteps: map<int, bool>

    /** Every entry was created by a checkbox of the protocol. */
    ghost predicate Valid()
      reads this
    {
      forall k :: k in checkedSteps ==> 0 <= k < activity.StepCount()
    }

    constructor (a: Activity)
      ensures Valid()
      ensures activity == a && checkedSteps == map[]
    {
      activity := a;
      checkedSteps := map[];
    }

    /** `toggleStep(index)`. The index is not checked against the protocol;
        the checkboxes only ever pass protocol indices. */
    method ToggleStep(i: int)
      modifies this`checkedSteps
      ensures checkedSteps == Toggled(old(checkedSteps), i)
      ensures old(Valid()) && 0 <= i < activity.StepCount() ==> Valid()
    {
      checkedSteps := checkedSteps[i := !IsChecked(checkedSteps, i)];
    }

    /** The rendered completion percentage. */
    function Progress(): (r: nat)
      reads this
      ensures checkedSteps == map[] ==> r == 0
      ensures activity.protocol.None? ==> r == 0
    {
      ProgressPercent(CheckedCount(checkedSteps), activity.protocol)
    }

    /** While every entry comes from a checkbox, the percentage stays
        within [0, 100] and reaches 100 once every step is checked. */
    lemma ProgressWithinBounds()
      requires Valid()
      ensures Progress() <= 100
      ensures activity.StepCount() > 0
        && (forall i :: 0 <= i < activity.StepCount() ==> IsChecked(checkedSteps, i))
        ==> Progress() == 100
    {
      CountWithinSteps(checkedSteps, activity.StepCount());
      ProgressBounded(CheckedCount(checkedSteps), activity.protocol);
      AllCheckedIffFull(checkedSteps, activity.StepCount());
    }
  }

  /** With keys among the first `n` indices, all `n` steps are checked
      exactly when the count reaches `n`. */
  lemma AllCheckedIffFull(m: map<int, bool>, n: nat)
    requires forall k :: k in m ==> 0 <= k < n
    ensures CheckedCount(m) == n <==> forall i :: 0 <= i < n ==> IsChecked(m, i)
  {
    assert CheckedSet(m) <= Range(n);
    if forall i :: 0 <= i < n ==> IsChecked(m, i) {
      forall k | k in Range(n) ensures k in CheckedSet(m) {
        assert IsChecked(m, k);
      }
      assert CheckedSet(m) == Range(n);
    }
    if CheckedCount(m) == n {
      forall i | 0 <= i < n ensures IsChecked(m, i) {
        if !IsChecked(m, i) {
          assert CheckedSet(m) <= Range(n) - {i};
          SubsetSize(CheckedSet(m), Range(n) - {i});
          assert false;
        }
      }
    }
  }
}
