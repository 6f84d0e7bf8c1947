/** The glossary behind the tooltips and the glossary panel: a fixed table of
    terms, grouping of the table by category, and case- and blank-insensitive
    lookup of a term. */
module Glossary {
  import opened Wrappers
  import opened PyText

  datatype Entry = Entry(term: string, definition: string, category: string)

  /** The table, in the order the panel lists it. */
  const Glossary: seq<Entry> := [
    Entry("forecast",
          "A prediction of what the weather will be at a place and time, based on models and recent observations.",
          "Data & forecast basics"),
    Entry("observation",
          "A real measurement (temperature, wind, etc.) from a sensor or station right now or in the past.",
          "Data & forecast basics"),
    Entry("station",
          "A fixed location (e.g. airport or buoy) where weather is measured and reported.",
          "Data & forecast basics"),
    Entry("dew point",
          "The temperature at which air would get saturated and dew forms; higher often means stickier, more humid air.",
          "Data & forecast basics"),
    Entry("wind chill",
          "\"Feels like\" temperature when wind blows on skin; stronger wind makes cold feel colder.",
          "Data & forecast basics"),
    Entry("heat index",
          "\"Feels like\" temperature in hot, humid conditions; humidity makes heat feel more intense.",
          "Data & forecast basics"),
    Entry("precipitation chance",
          "The probability (e.g. 30%) that measurable rain or snow will fall at that location in the given period.",
          "Data & forecast basics"),
    Entry("watch vs warning",
          "A watch means conditions are possible; a warning means they're happening or imminent—take action.",
          "Data & forecast basics"),
    Entry("NDFD",
          "National Digital Forecast Database; the NWS's gridded blend of human and model forecasts.",
          "Data & forecast basics"),
    Entry("GFS",
          "Global Forecast System; NOAA's global weather model that runs every 6 hours.",
          "Data & forecast basics"),
    Entry("bias correction",
          "Adjusting model output so it matches past observations on average (e.g. if the model is usually 2°F too warm, subtract 2°F).",
          "Post-processing"),
    Entry("downscaling",
          "Taking coarser model data and refining it to a finer grid or location so local detail is better.",
          "Post-processing"),
    Entry("ensemble",
          "Many slightly different model runs used together to show a range of possible outcomes instead of one single forecast.",
          "Post-processing"),
    Entry("spread",
          "How much the ensemble members differ; large spread often means more uncertainty.",
          "Post-processing"),
    Entry("percentile",
          "A value that a given percent of outcomes fall below (e.g. 90th percentile temperature = warmer than 90% of ensemble members).",
          "Post-processing"),
    Entry("raw vs corrected",
          "Raw is direct model output; corrected is after bias correction or other post-processing.",
          "Post-processing"),
    Entry("advection",
          "Something (e.g. temperature or moisture) being carried along by the wind.",
          "Simple physics"),
    Entry("diffusion",
          "Smoothing or spreading of a quantity (e.g. heat or smoke) from areas of high to low concentration.",
          "Simple physics"),
    Entry("sounding",
          "A vertical profile of the atmosphere (temperature, humidity, wind vs height) from a balloon or model.",
          "Simple physics"),
    Entry("skew-T",
          "A standard chart that shows a sounding; used to read stability and moisture with height.",
          "Simple physics"),
    Entry("CAPE",
          "Convective Available Potential Energy; a measure of how much \"fuel\" the atmosphere has for thunderstorms (higher = more potential).",
          "Simple physics"),
    Entry("CIN",
          "Convective Inhibition; a \"lid\" that can prevent storms from forming even when CAPE is present.",
          "Simple physics"),
    Entry("stability",
          "Whether air tends to stay in place (stable) or rise and form clouds/storms (unstable).",
          "Simple physics"),
    Entry("parcel",
          "A hypothetical blob of air that we track (e.g. lift it and see if it keeps rising) to understand stability.",
          "Simple physics"),
    Entry("primitive equations",
          "The core physics equations (motion, mass, energy) that full weather models solve to predict the atmosphere.",
          "NWP concepts"),
    Entry("pressure level",
          "A horizontal slice of the atmosphere at a fixed pressure (e.g. 500 mb), often used instead of height.",
          "NWP concepts"),
    Entry("boundary conditions",
          "Values at the edges of the model domain, usually from a larger model like GFS, that \"drive\" your run.",
          "NWP concepts"),
    Entry("data assimilation",
          "Blending new observations into the model's state so the forecast starts from a more accurate picture.",
          "NWP concepts"),
    Entry("cross-section",
          "A vertical slice through the atmosphere (e.g. along a line) showing how a variable changes with height and distance.",
          "NWP concepts"),
    Entry("model run",
          "One execution of the numerical model from a start time, producing a forecast over a set period.",
          "NWP concepts")
  ]

  // ---------------------------------------------------------------- grouping by category

  /** The entries of category `c`, in table order. */
  function InCategory(entries: seq<Entry>, c: string): seq<Entry>
    decreases |entries|
  {
    if entries == [] then []
    else
      var last := entries[|entries| - 1];
      InCategory(entries[..|entries| - 1], c) + (if last.category == c then [last] else [])
  }

  /** The categories that occur in `entries`, each once, in order of first occurrence
      (the key order of the dictionary the source builds). */
  function Categories(entries: seq<Entry>): (cats: seq<string>)
    ensures forall i, j :: 0 <= i < j < |cats| ==> cats[i] != cats[j]
    ensures forall c :: c in cats <==> exists e :: e in entries && e.category == c
    decreases |entries|
  {
    if entries == [] then []
    else
      var init := entries[..|entries| - 1];
      var last := entries[|entries| - 1];
      assert forall e :: e in entries <==> e in init || e == last;
      var prev := Categories(init);
      if last.category in prev then prev else prev + [last.category]
  }

  /** `get_glossary_by_category`, applied by the source to `Glossary`: the
      entries grouped under their category, keys in order of first occurrence. */
  method GroupByCategory(entries: seq<Entry>) returns (keys: seq<string>, out: map<string, seq<Entry>>)
    ensures keys == Categories(entries)
    ensures forall c :: c in out <==> c in keys
    ensures forall c :: c in out ==> out[c] == InCategory(entries, c) && out[c] != []
  {
    keys, out := [], map[];
    for i := 0 to |entries|
      invariant keys == Categories(entries[..i])
      invariant forall c :: c in out <==> c in keys
      invariant forall c :: c in out ==> out[c] == InCategory(entries[..i], c) && out[c] != []
    {
      var entry := entries[i];
      var cat := entry.category;
      assert entries[..i + 1][..i] == entries[..i];
      if cat !in out {
        out := out[cat := []];
        keys := keys + [cat];
        InCategoryAbsent(entries[..i], cat);
      }
      out := out[cat := out[cat] + [entry]];
    }
    assert entries[..|entries|] == entries;
  }

  /** A category that does not occur has no entries. */
  lemma {:induction false} InCategoryAbsent(entries: seq<Entry>, c: string)
    requires c !in Categories(entries)
    ensures InCategory(entries, c) == []
  {
    if entries != [] {
      InCategoryAbsent(entries[..|entries| - 1], c);
    }
  }

  /** Every entry of a category's list carries that category. */
  lemma {:induction false} InCategoryOnly(entries: seq<Entry>, c: string)
    ensures forall e :: e in InCategory(entries, c) ==> e in entries && e.category == c
  {
    if entries != [] {
      var init := entries[..|entries| - 1];
      InCategoryOnly(init, c);
      assert forall e :: e in init ==> e in entries;
    }
  }

  /** No list is empty: a category has entries exactly when it occurs. */
  lemma InCategoryNonEmpty(entries: seq<Entry>, c: string)
    ensures InCategory(entries, c) != [] <==> c in Categories(entries)
  {
    if c in Categories(entries) {
      var e :| e in entries && e.category == c;
      var i :| 0 <= i < |entries| && entries[i] == e;
      InCategoryHas(entries, i);
    } else {
      InCategoryAbsent(entries, c);
    }
  }

  lemma {:induction false} InCategoryHas(entries: seq<Entry>, i: nat)
    requires i < |entries|
    ensures entries[i] in InCategory(entries, entries[i].category)
  {
    if i < |entries| - 1 {
      InCategoryHas(entries[..|entries| - 1], i);
    }
  }

  /** Grouping keeps the table order: the list of a concatenation is the list
      of the first part followed by the list of the second. */
  lemma {:induction false} InCategoryAppend(a: seq<Entry>, b: seq<Entry>, c: string)
    ensures InCategory(a + b, c) == InCategory(a, c) + InCategory(b, c)
  {
    if b == [] {
      assert a + b == a;
    } else {
      assert (a + b)[..|a + b| - 1] == a + b[..|b| - 1];
      InCategoryAppend(a, b[..|b| - 1], c);
    }
  }

  /** Every entry appears under its own category as often as in the table,
      and under no other category. */
  lemma {:induction false} InCategoryCount(entries: seq<Entry>, c: string, e: Entry)
    ensures multiset(InCategory(entries, c))[e] == if e.category == c then multiset(entries)[e] else 0
  {
    if entries != [] {
      var init := entries[..|entries| - 1];
      assert entries == init + [entries[|entries| - 1]];
      InCategoryCount(init, c, e);
    }
  }

  /** The sum of the list lengths over the given keys. */
  function GroupedSize(entries: seq<Entry>, keys: seq<string>): nat {
    if keys == [] then 0
    else GroupedSize(entries, keys[..|keys| - 1]) + |InCategory(entries, keys[|keys| - 1])|
  }

  /** The groups partition the table: their sizes add up to its size. */
  lemma {:induction false} GroupSizesSum(entries: seq<Entry>)
    ensures GroupedSize(entries, Categories(entries)) == |entries|
  {
    if entries != [] {
      var init := entries[..|entries| - 1];
      var last := entries[|entries| - 1];
      assert entries == init + [last];
      var prev := Categories(init);
      GroupSizesSum(init);
      GroupedSizeStep(init, last, prev);
      if last.category in prev {
        assert Categories(entries) == prev;
      } else {
        var cats := prev + [last.category];
        assert Categories(entries) == cats;
        assert cats[..|cats| - 1] == prev;
        InCategoryAbsent(init, last.category);
        assert InCategory(entries, last.category) == [last];
        assert GroupedSize(entries, cats) == GroupedSize(entries, prev) + 1;
      }
    }
  }

  /** Appending one entry adds one to the size of the keys that list its category. */
  lemma {:induction false} GroupedSizeStep(init: seq<Entry>, last: Entry, keys: seq<string>)
    requires forall i, j :: 0 <= i < j < |keys| ==> keys[i] != keys[j]
    ensures GroupedSize(init + [last], keys) ==
              GroupedSize(init, keys) + (if last.category in keys then 1 else 0)
  {
    if keys != [] {
      var front := keys[..|keys| - 1];
      assert forall k :: k in keys <==> k in front || k == keys[|keys| - 1];
      GroupedSizeStep(init, last, front);
      assert (init + [last])[..|init|] == init;
    }
  }

  // ---------------------------------------------------------------- lookup

  /** The first entry whose lower-cased term is `key`. */
  function FirstMatch(entries: seq<Entry>, key: string): (r: Option<Entry>)
    ensures r.Some? ==> exists i :: 0 <= i < |entries| && entries[i] == r.value && Lower(entries[i].term) == key
                                    && forall j :: 0 <= j < i ==> Lower(entries[j].term) != key
    ensures r.None? <==> forall j :: 0 <= j < |entries| ==> Lower(entries[j].term) != key
  {
    if entries == [] then None
    else if Lower(entries[0].term) == key then Some(entries[0])
    else
      var r := FirstMatch(entries[1..], key);
      assert r.Some? ==> exists i :: 1 <= i < |entries| && entries[i] == r.value && Lower(entries[i].term) == key
                                     && forall j :: 1 <= j < i ==> Lower(entries[j].term) != key
        by {
        if r.Some? {
          var i :| 0 <= i < |entries[1..]| && entries[1..][i] == r.value && Lower(entries[1..][i].term) == key
                   && forall j :: 0 <= j < i ==> Lower(entries[1..][j].term) != key;
          assert entries[i + 1] == r.value;
          assert forall j :: 1 <= j < i + 1 ==> entries[j] == entries[1..][j - 1];
        }
      }
      assert forall j :: 1 <= j < |entries| ==> entries[j] == entries[1..][j - 1];
      r
  }

  /** `get_term`, applied by the source to `Glossary`: the first entry whose
      term matches the query after stripping blanks and lower-casing both. */
  function GetTerm(entries: seq<Entry>, query: string): (r: Option<Entry>)
    ensures r.Some? ==> r.value in entries && Lower(r.value.term) == Lower(Strip(query))
    ensures r.None? <==> forall e :: e in entries ==> Lower(e.term) != Lower(Strip(query))
  {
    FirstMatch(entries, Lower(Strip(query)))
  }

  /** Queries that differ only in letter case find the same entry. */
  lemma GetTermIgnoresCase(entries: seq<Entry>, q1: string, q2: string)
    requires Lower(q1) == Lower(q2)
    ensures GetTerm(entries, q1) == GetTerm(entries, q2)
  {
    LowerStrip(q1);
    LowerStrip(q2);
  }

  /** Blanks around the query do not change the result. */
  lemma GetTermIgnoresSurroundingBlanks(entries: seq<Entry>, pre: string, q: string, post: string)
    requires AllSpace(pre) && AllSpace(post)
    ensures GetTerm(entries, pre + q + post) == GetTerm(entries, q)
  {
    StripSurrounding(pre, q, post);
  }

  /** No two terms of the table are equal once lower-cased. */
  predicate DistinctTerms(entries: seq<Entry>) {
    forall i, j :: 0 <= i < j < |entries| ==> Lower(entries[i].term) != Lower(entries[j].term)
  }

  /** No term starts or ends with a blank. */
  predicate TrimmedTerms(entries: seq<Entry>) {
    forall i :: 0 <= i < |entries| ==> Strip(entries[i].term) == entries[i].term
  }

  /** In a table of distinct terms, the first entry matching a key is the only
      one. */
  lemma FirstOfDistinct(entries: seq<Entry>, key: string, i: nat, k: nat)
    requires DistinctTerms(entries) && i < |entries| && k < |entries|
    requires Lower(entries[i].term) == key && Lower(entries[k].term) == key
    requires forall j :: 0 <= j < k ==> Lower(entries[j].term) != key
    ensures k == i
  {
  }

  /** In a table of distinct, trimmed terms, looking up an entry's own term
      finds that entry. */
  lemma GetOwnTerm(entries: seq<Entry>, i: nat)
    requires DistinctTerms(entries) && TrimmedTerms(entries) && i < |entries|
    ensures GetTerm(entries, entries[i].term) == Some(entries[i])
  {
    var term := entries[i].term;
    var key := Lower(term);
    assert Strip(term) == term;
    var r := FirstMatch(entries, key);
    assert GetTerm(entries, term) == r;
    assert Lower(entries[i].term) == key;
    var k :| 0 <= k < |entries| && entries[k] == r.value && Lower(entries[k].term) == key
             && forall j :: 0 <= j < k ==> Lower(entries[j].term) != key;
    FirstOfDistinct(entries, key, i, k);
  }
}
