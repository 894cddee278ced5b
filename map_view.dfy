/** The observation explorer (the map page): the single-valued category
    filter, the filtered list, the badge counts, the five-item recent feed,
    and the per-type marker icon, feed colour, feed emoji and labels. */
module MapView {
  import opened Wrappers
  import opened Observations

  /** The filter value that shows every record. */
  const All: string := "all"

  /** How many records the recent feed shows. */
  const FeedSize: nat := 5

  /** The five filter buttons of the sidebar. */
  datatype FilterBadge = AllData | Only(category: Category)
  {
    /** The filter value the button installs when clicked. */
    function Filter(): string
    {
      match this
      case AllData => All
      case Only(c) => c.Key()
    }

    function Label(): string
    {
      match this
      case AllData => "All Data"
      case Only(WaterQuality) => "Water"
      case Only(Wildlife) => "Wildlife"
      case Only(Plant) => "Plants"
      case Only(AirQuality) => "Air"
    }

    function Colour(): string
    {
      match this
      case AllData => "#94a3b8"
      case Only(WaterQuality) => "#3b82f6"
      case Only(Wildlife) => "#22c55e"
      case Only(Plant) => "#eab308"
      case Only(AirQuality) => "#ef4444"
    }
  }

  /** The values the buttons can put in the filter. */
  predicate IsFilterValue(f: string)
  {
    f == All || IsKnown(f)
  }

  /** Every button installs a legal filter value, each legal value is
      installed by some button, and distinct buttons install distinct values. */
  lemma BadgeFiltersAreExactlyTheLegalValues(f: string)
    ensures IsFilterValue(f) <==> exists b: FilterBadge :: b.Filter() == f
    ensures forall b1: FilterBadge, b2: FilterBadge :: b1.Filter() == b2.Filter() ==> b1 == b2
  {
    if IsFilterValue(f) {
      if f == All {
        assert AllData.Filter() == f;
      } else {
        assert Only(CategoryOf(f).value).Filter() == f;
      }
    }
  }

  // ----- sequences -----

  /** `a` is `b` with some elements left out, order kept. */
  predicate IsSubsequence<T(==)>(a: seq<T>, b: seq<T>)
    decreases |b|
  {
    if a == [] then true
    else if b == [] then false
    else
      || (a[|a| - 1] == b[|b| - 1] && IsSubsequence(a[..|a| - 1], b[..|b| - 1]))
      || IsSubsequence(a, b[..|b| - 1])
  }

  lemma {:induction false} SubsequenceOfItself<T>(a: seq<T>)
    ensures IsSubsequence(a, a)
    decreases |a|
  {
    if a != [] {
      SubsequenceOfItself(a[..|a| - 1]);
    }
  }

  lemma {:induction false} PrefixIsSubsequence<T>(a: seq<T>, n: nat)
    requires n <= |a|
    ensures IsSubsequence(a[..n], a)
    decreases |a|
  {
    if n == |a| {
      assert a[..n] == a;
      SubsequenceOfItself(a);
    } else {
      assert a[..n] == a[..|a| - 1][..n];
      PrefixIsSubsequence(a[..|a| - 1], n);
    }
  }

  /** Leaving elements out twice is leaving elements out once. */
  lemma {:induction false} SubsequenceTransitive<T>(a: seq<T>, b: seq<T>, c: seq<T>)
    requires IsSubsequence(a, b) && IsSubsequence(b, c)
    ensures IsSubsequence(a, c)
    decreases |c|
  {
    if a != [] {
      assert b != [] && c != [];
      if b[|b| - 1] == c[|c| - 1] && IsSubsequence(b[..|b| - 1], c[..|c| - 1]) {
        if a[|a| - 1] == b[|b| - 1] && IsSubsequence(a[..|a| - 1], b[..|b| - 1]) {
          SubsequenceTransitive(a[..|a| - 1], b[..|b| - 1], c[..|c| - 1]);
        } else {
          SubsequenceTransitive(a, b[..|b| - 1], c[..|c| - 1]);
        }
      } else {
        SubsequenceTransitive(a, b, c[..|c| - 1]);
      }
    }
  }

  // ----- the filtered list -----

  /** `observations.filter(obs => obs.type === t)`. */
  function Matching(obs: seq<Observation>, t: string): (r: seq<Observation>)
    ensures |r| == CountType(obs, t)
    ensures forall i :: 0 <= i < |r| ==> r[i].kind == t
  {
    if obs == [] then []
    else
      var init, last := obs[..|obs| - 1], obs[|obs| - 1];
      assert obs == init + [last];
      Matching(init, t) + (if last.kind == t then [last] else [])
  }

  /** The records the map and the feed show for filter value `f`. */
  function Filtered(obs: seq<Observation>, f: string): (r: seq<Observation>)
    ensures f != All ==> |r| == CountType(obs, f)
    ensures f != All ==> forall i :: 0 <= i < |r| ==> r[i].kind == f
  {
    if f == All then obs else Matching(obs, f)
  }

  /** The filtered list keeps input order: it is a subsequence of the input. */
  lemma {:induction false} MatchingIsSubsequence(obs: seq<Observation>, t: string)
    ensures IsSubsequence(Matching(obs, t), obs)
    decreases |obs|
  {
    if obs != [] {
      var init, last := obs[..|obs| - 1], obs[|obs| - 1];
      MatchingIsSubsequence(init, t);
      if last.kind != t {
        assert Matching(obs, t) == Matching(init, t);
      }
    }
  }

  /** A record is selected exactly when it is in the input with type `t`. */
  lemma {:induction false} MatchingMembers(obs: seq<Observation>, t: string)
    ensures forall x :: x in Matching(obs, t) <==> x in obs && x.kind == t
    decreases |obs|
  {
    if obs != [] {
      var init, last := obs[..|obs| - 1], obs[|obs| - 1];
      assert obs == init + [last];
      MatchingMembers(init, t);
    }
  }

  /** With filter `all` the list is the input unchanged; with any other
      value it is an order-preserving selection of exactly the records of
      that type (all of them, by the count). */
  lemma FilteredIsOrderedSelection(obs: seq<Observation>, f: string)
    ensures f == All ==> Filtered(obs, f) == obs
    ensures IsSubsequence(Filtered(obs, f), obs)
    ensures f != All ==> |Filtered(obs, f)| == CountType(obs, f)
    ensures f != All ==> forall x :: x in Filtered(obs, f) <==> x in obs && x.kind == f
  {
    if f == All {
      SubsequenceOfItself(obs);
    } else {
      MatchingIsSubsequence(obs, f);
      MatchingMembers(obs, f);
    }
  }

  lemma MatchingSnoc(s: seq<Observation>, x: Observation, t: string)
    ensures Matching(s + [x], t) == Matching(s, t) + (if x.kind == t then [x] else [])
  {
    assert (s + [x])[..|s|] == s;
  }

  lemma {:induction false} MatchingIdempotent(obs: seq<Observation>, t: string)
    ensures Matching(Matching(obs, t), t) == Matching(obs, t)
    decreases |obs|
  {
    if obs != [] {
      var init, last := obs[..|obs| - 1], obs[|obs| - 1];
      assert obs == init + [last];
      MatchingIdempotent(init, t);
      MatchingSnoc(init, last, t);
      var m := Matching(init, t);
      if last.kind == t {
        assert Matching(obs, t) == m + [last];
        MatchingSnoc(m, last, t);
        assert Matching(m + [last], t) == Matching(m, t) + [last];
      } else {
        assert Matching(obs, t) == m;
      }
    }
  }

  /** Filtering twice by the same value changes nothing. */
  lemma FilteredIdempotent(obs: seq<Observation>, f: string)
    ensures Filtered(Filtered(obs, f), f) == Filtered(obs, f)
  {
    if f != All {
      MatchingIdempotent(obs, f);
    }
  }

  // ----- the recent feed -----

  /** `filteredObs.slice(0, 5)`. */
  function RecentFeed(filtered: seq<Observation>): (r: seq<Observation>)
    ensures |r| <= FeedSize && |r| <= |filtered|
    ensures |r| == FeedSize || |r| == |filtered|
    ensures r == [] <==> filtered == []
    ensures forall i :: 0 <= i < |r| ==> r[i] == filtered[i]
  {
    if |filtered| <= FeedSize then filtered else filtered[..FeedSize]
  }

  /** The feed shows records of the input, in input order, and under a
      category filter only records of that category. */
  lemma FeedIsOrderedSelection(obs: seq<Observation>, f: string)
    ensures IsSubsequence(RecentFeed(Filtered(obs, f)), obs)
    ensures f != All ==> forall x :: x in RecentFeed(Filtered(obs, f)) ==> x in obs && x.kind == f
  {
    var filtered := Filtered(obs, f);
    var feed := RecentFeed(filtered);
    FilteredIsOrderedSelection(obs, f);
    PrefixIsSubsequence(filtered, |feed|);
    assert feed == filtered[..|feed|];
    SubsequenceTransitive(feed, filtered, obs);
  }

  // ----- per-type presentation -----

  datatype MarkerIcon = BlueMarker | GreenMarker | GoldMarker | RedMarker | GreyMarker

  function CategoryIcon(c: Category): MarkerIcon
  {
    match c
    case WaterQuality => BlueMarker
    case Wildlife => GreenMarker
    case Plant => GoldMarker
    case AirQuality => RedMarker
  }

  /** `icons[obs.type] || icons.default`; the table's own `default` key
      also holds the grey icon. */
  function IconFor(t: string): (r: MarkerIcon)
    ensures r == GreyMarker <==> !IsKnown(t)
    ensures forall c: Category :: c.Key() == t ==> r == CategoryIcon(c)
  {
    match CategoryOf(t)
    case Some(c) => CategoryIcon(c)
    case None => GreyMarker
  }

  /** Distinct known categories get distinct markers. */
  lemma IconsDistinguishCategories(t1: string, t2: string)
    requires IsKnown(t1) && IsKnown(t2) && t1 != t2
    ensures IconFor(t1) != IconFor(t2)
  {
  }

  datatype FeedEmoji = Droplet | PawPrints | Herb | Dash

  /** The feed item's icon background: three categories have their own
      colour; every other type, unknown ones included, gets the air red. */
  function FeedColour(t: string): (r: string)
    ensures r == "#ef4444" <==> t !in {"water_quality", "wildlife", "plant"}
  {
    if t == "water_quality" then "#3b82f6"
    else if t == "wildlife" then "#22c55e"
    else if t == "plant" then "#eab308"
    else "#ef4444"
  }

  /** The feed item's emoji, chosen by the same three tests as the colour. */
  function FeedEmojiFor(t: string): (r: FeedEmoji)
    ensures r == Dash <==> t !in {"water_quality", "wildlife", "plant"}
  {
    if t == "water_quality" then Droplet
    else if t == "wildlife" then PawPrints
    else if t == "plant" then Herb
    else Dash
  }

  /** A feed item of a known category has the colour of that category's
      filter button, and colour and emoji always switch together. */
  lemma FeedMatchesBadges(t: string)
    ensures forall c: Category :: c.Key() == t ==> FeedColour(t) == Only(c).Colour()
    ensures FeedColour(t) == "#ef4444" <==> FeedEmojiFor(t) == Dash
  {
  }

  /** `water_quality`, `wildlife` and `plant` each get an emoji of their
      own, and two types share an emoji exactly when they share a feed
      colour. */
  lemma FeedEmojisDistinguishCategories(t1: string, t2: string)
    ensures t1 in {"water_quality", "wildlife", "plant"} && t2 in {"water_quality", "wildlife", "plant"} && t1 != t2
      ==> FeedEmojiFor(t1) != FeedEmojiFor(t2)
    ensures FeedEmojiFor(t1) == FeedEmojiFor(t2) <==> FeedColour(t1) == FeedColour(t2)
  {
  }

  /** `t.replace('_', ' ')`: a string pattern replaces its first occurrence
      only. */
  function Label(t: string): (r: string)
    ensures |r| == |t|
  {
    if t == [] then []
    else if t[0] == '_' then [' '] + t[1..]
    else [t[0]] + Label(t[1..])
  }

  /** Character by character, the label is the type with the first
      underscore, and only that one, turned into a space. */
  lemma {:induction false} LabelReplacesFirstUnderscore(t: string)
    ensures forall j :: 0 <= j < |t| ==>
      Label(t)[j] == (if t[j] == '_' && '_' !in t[..j] then ' ' else t[j])
  {
    if t != [] && t[0] != '_' {
      LabelReplacesFirstUnderscore(t[1..]);
      assert forall j :: 1 <= j < |t| ==> t[1..][..j - 1] == t[1..j];
    }
  }

  function Occurrences(s: string, ch: char): nat
  {
    if s == [] then 0 else (if s[0] == ch then 1 else 0) + Occurrences(s[1..], ch)
  }

  /** The label has one underscore fewer than the type, or the same string
      when the type has none. */
  lemma {:induction false} LabelRemovesOneUnderscore(t: string)
    ensures '_' !in t ==> Label(t) == t
    ensures '_' in t ==> Occurrences(Label(t), '_') == Occurrences(t, '_') - 1
  {
    if t != [] && t[0] != '_' {
      LabelRemovesOneUnderscore(t[1..]);
      assert t == [t[0]] + t[1..];
      assert Label(t)[1..] == Label(t[1..]);
    } else if t != [] {
      assert Label(t)[1..] == t[1..];
    }
  }

  /** The label keeps everything before the first underscore, turns that
      underscore into a space, and keeps everything after it verbatim,
      further underscores included. */
  lemma {:induction false} LabelAtFirstUnderscore(p: string, rest: string)
    requires '_' !in p
    ensures Label(p + "_" + rest) == p + " " + rest
  {
    var t := p + "_" + rest;
    if p == [] {
      assert t == ['_'] + rest;
    } else {
      assert t[0] == p[0] != '_';
      assert t[1..] == p[1..] + "_" + rest;
      LabelAtFirstUnderscore(p[1..], rest);
      assert [p[0]] + (p[1..] + " " + rest) == p + " " + rest;
    }
  }

  function UpperChar(ch: char): char
  {
    if 'a' <= ch <= 'z' then (ch as int - 32) as char else ch
  }

  /** `toUpperCase()` restricted to ASCII letters. */
  function Upper(s: string): (r: string)
    ensures |r| == |s|
    ensures forall j :: 0 <= j < |s| ==> r[j] == UpperChar(s[j])
  {
    seq(|s|, j requires 0 <= j < |s| => UpperChar(s[j]))
  }

  /** The popup heading of a marker. */
  function PopupTitle(t: string): (r: string)
    ensures |r| == |t|
    ensures forall j :: 0 <= j < |t| ==>
      r[j] == UpperChar(if t[j] == '_' && '_' !in t[..j] then ' ' else t[j])
  {
    LabelReplacesFirstUnderscore(t);
    Upper(Label(t))
  }

  /** A category label: the underscore becomes a space. */
  lemma WaterQualityLabel()
    ensures Label("water_quality") == "water quality"
  {
    LabelAtFirstUnderscore("water", "quality");
    assert "water" + "_" + "quality" == "water_quality";
    assert "water" + " " + "quality" == "water quality";
  }

  /** The popup heading of an air-quality marker. */
  lemma AirQualityTitle()
    ensures PopupTitle("air_quality") == "AIR QUALITY"
  {
  }

  // ----- the explorer's state -----

  /** The explorer page's local state: the fetched list and the active filter. */
  class Explorer {
    var observations: seq<Observation>
    var activeFilter: string

    ghost predicate Valid()
      reads this
    {
      IsFilterValue(activeFilter)
    }

    constructor ()
      ensures Valid()
      ensures observations == [] && activeFilter == All
    {
      observations := [];
      activeFilter := All;
    }

    /** The fetch completed with `data`. */
    method Loaded(data: seq<Observation>)
      modifies this`observations
      ensures observations == data
    {
      observations := data;
    }

    /** A filter button was clicked. */
    method Click(b: FilterBadge)
      modifies this`activeFilter
      ensures Valid()
      ensures activeFilter == b.Filter()
    {
      activeFilter := b.Filter();
    }

    /** The `filteredObs` memo. */
    function FilteredObs(): (r: seq<Observation>)
      reads this
      ensures IsSubsequence(r, observations)
      ensures activeFilter == All ==> r == observations
    {
      FilteredIsOrderedSelection(observations, activeFilter);
      Filtered(observations, activeFilter)
    }

    /** The `stats` memo: the dictionary starts at the list length under
        `all` and zero for each category, then the counting loop bumps
        every key that equals a record's type, `all` included. */
    method Stats() returns (counts: map<string, nat>)
      ensures counts.Keys == {All, "water_quality", "wildlife", "plant", "air_quality"}
      ensures counts[All] == |observations| + CountType(observations, All)
      ensures forall c: Category :: counts[c.Key()] == CountType(observations, c.Key())
      ensures counts["water_quality"] + counts["wildlife"] + counts["plant"] + counts["air_quality"]
        <= |observations|
      ensures (counts["water_quality"] + counts["wildlife"] + counts["plant"] + counts["air_quality"]
                 == |observations|)
        <==> forall i :: 0 <= i < |observations| ==> IsKnown(observations[i].kind)
    {
      var init := map[All := |observations|, "water_quality" := 0, "wildlife" := 0,
                       "plant" := 0, "air_quality" := 0];
      counts := Tally(observations, init);
      forall c: Category ensures c.Key() in init && init[c.Key()] == 0 {
      }
      BucketsConserve(observations);
    }
  }

  /** The badge count of `all` is the list length exactly when no record
      has the type string "all"; each such record adds one. */
  lemma AllCountQuirk(obs: seq<Observation>)
    ensures |obs| + CountType(obs, All) == |obs| <==> forall i :: 0 <= i < |obs| ==> obs[i].kind != All
  {
    CountTypeZero(obs, All);
  }

  lemma {:induction false} CountTypeZero(obs: seq<Observation>, t: string)
    ensures CountType(obs, t) == 0 <==> forall i :: 0 <= i < |obs| ==> obs[i].kind != t
    decreases |obs|
  {
    if obs != [] {
      var init := obs[..|obs| - 1];
      CountTypeZero(init, t);
      assert forall i :: 0 <= i < |init| ==> init[i] == obs[i];
    }
  }
}
