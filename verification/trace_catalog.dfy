/** The letter catalog of the tracing component: how a requested letter is normalised, how
    raw per-letter records become strokes, and how the catalog serves each kept letter under
    its own key and under its lower-case alias. */
module TraceCatalog {
  import opened Options
  import opened Strings

  /** A point in the 300 x 300 canvas space (origin top-left). */
  datatype Point = Point(x: real, y: real)

  /** One continuous pen motion; playback order is sequence order. */
  type Stroke = seq<Point>

  /** A value the component receives for a letter: a string, or anything else JavaScript may
      hand it (`null`, `undefined`, a number, an object). */
  datatype JsValue = Str(s: string) | NonString

  /** One record of the letter files after `Object.assign` merged them: either something that is
      not a record (null, a number, ...) or a record whose `strokes` and `points` fields are
      arrays (`Some`) or are missing or of another type (`None`). */
  datatype RawValue =
    | NotRecord
    | Record(strokes: Option<seq<Stroke>>, points: Option<Stroke>)

  /** Letter key to strokes. */
  type Catalog = map<string, seq<Stroke>>

  /** The normalisation of the `initialLetter` prop: falsy or non-string input gives nothing;
      otherwise the trimmed, upper-cased text when it is exactly one character long. */
  function NormalizeLetterInput(value: JsValue): (r: Option<string>)
    ensures r.Some? <==> value.Str? && |JsTrim(value.s)| == 1
    ensures r.Some? ==> |r.value| == 1 && r.value == Upper(JsTrim(value.s))
  {
    match value
    case NonString => None
    case Str(s) =>
      if s == "" then None
      else
        var trimmed := Upper(JsTrim(s));
        if |trimmed| == 1 then Some(trimmed) else None
  }

  /** The normalised letter is a fixed point: passed again as the prop, it normalises to
      itself, so re-rendering with the letter the component shows requests nothing new. */
  lemma {:induction false} NormalizeLetterInputIdempotent(value: JsValue)
    requires NormalizeLetterInput(value).Some?
    ensures NormalizeLetterInput(Str(NormalizeLetterInput(value).value)) == NormalizeLetterInput(value)
  {
    var t := JsTrim(value.s);
    var c := NormalizeLetterInput(value).value;
    assert c[0] == UpperChar(t[0]) && !IsJsSpace(t[0]);
    TrimWithKeepsTrimmed(c, IsJsSpace);
    UpperIdempotent(t);
  }

  /** The strokes a raw record contributes: a non-empty `strokes` array wins, otherwise a
      non-empty `points` array becomes a single stroke, otherwise nothing. */
  function StrokesOf(raw: RawValue): (r: seq<Stroke>)
    ensures raw.Record? && raw.strokes.Some? && |raw.strokes.value| > 0 ==> r == raw.strokes.value
    ensures (raw.Record? && (raw.strokes.None? || |raw.strokes.value| == 0)
             && raw.points.Some? && |raw.points.value| > 0) ==> r == [raw.points.value]
    ensures r == [] <==> (raw.NotRecord? || ((raw.strokes.None? || raw.strokes.value == [])
                                            && (raw.points.None? || raw.points.value == [])))
  {
    match raw
    case NotRecord => []
    case Record(strokes, points) =>
      var fromStrokes := strokes.GetOr([]);
      var fromPoints := points.GetOr([]);
      if |fromStrokes| > 0 then fromStrokes
      else if |fromPoints| > 0 then [fromPoints]
      else []
  }

  /** A letter is kept when it contributes at least one stroke. */
  predicate Kept(entry: (string, RawValue)) {
    |StrokesOf(entry.1)| > 0
  }

  // ---------------------------------------------------------------------------------------
  // The order in which `Object.keys(aggregated).sort()` visits the letters

  /** Strict lexicographic order on characters. `Array.prototype.sort` compares UTF-16 code
      units; the two orders agree on strings without characters above U+FFFF. */
  predicate Below(a: string, b: string) {
    if a == [] then b != []
    else if b == [] then false
    else a[0] < b[0] || (a[0] == b[0] && Below(a[1..], b[1..]))
  }

  predicate SortedKeys(entries: seq<(string, RawValue)>) {
    forall i, j :: 0 <= i < j < |entries| ==> Below(entries[i].0, entries[j].0)
  }

  lemma {:induction false} BelowIrreflexive(s: string)
    ensures !Below(s, s)
  {
    if s != [] {
      BelowIrreflexive(s[1..]);
    }
  }

  /** Lower-casing never moves a string down in the sort order. */
  lemma {:induction false} LowerNotBelow(s: string)
    ensures !Below(Lower(s), s)
  {
    if s != [] {
      LowerNotBelow(s[1..]);
      assert Lower(s)[1..] == Lower(s[1..]);
    }
  }

  // ---------------------------------------------------------------------------------------
  // The catalog build

  /** One step of the `forEach` over the sorted letters. */
  function Insert(m: Catalog, entry: (string, RawValue)): Catalog {
    var strokes := StrokesOf(entry.1);
    if |strokes| == 0 then m else m[entry.0 := strokes][Lower(entry.0) := strokes]
  }

  /** The letter map built from the aggregated records, visited in sorted key order. */
  function BuildCatalog(entries: seq<(string, RawValue)>): Catalog
    decreases |entries|
  {
    if entries == [] then map[]
    else Insert(BuildCatalog(entries[..|entries| - 1]), entries[|entries| - 1])
  }

  /** `k` is a kept letter of `entries` or the lower-case alias of one. */
  predicate FromKept(entries: seq<(string, RawValue)>, k: string) {
    exists i :: 0 <= i < |entries| && Kept(entries[i]) && (k == entries[i].0 || k == Lower(entries[i].0))
  }

  /** Letters without strokes are dropped, so every catalog entry has at least one stroke. */
  lemma {:induction false} BuildCatalogNonEmpty(entries: seq<(string, RawValue)>)
    ensures forall k :: k in BuildCatalog(entries) ==> |BuildCatalog(entries)[k]| > 0
    decreases |entries|
  {
    if entries != [] {
      BuildCatalogNonEmpty(entries[..|entries| - 1]);
    }
  }

  /** The catalog holds exactly the kept letters and their lower-case aliases. */
  lemma {:induction false} BuildCatalogKeys(entries: seq<(string, RawValue)>)
    ensures forall i :: 0 <= i < |entries| && Kept(entries[i]) ==>
              entries[i].0 in BuildCatalog(entries) && Lower(entries[i].0) in BuildCatalog(entries)
    ensures forall k :: k in BuildCatalog(entries) ==> FromKept(entries, k)
    decreases |entries|
  {
    if entries != [] {
      var n := |entries|;
      var init := entries[..n - 1];
      var last := entries[n - 1];
      BuildCatalogKeys(init);
      var m := BuildCatalog(init);
      var m' := BuildCatalog(entries);
      assert m' == Insert(m, last);
      assert m.Keys <= m'.Keys;
      forall i | 0 <= i < n && Kept(entries[i])
        ensures entries[i].0 in m' && Lower(entries[i].0) in m'
      {
        if i < n - 1 {
          assert entries[i] == init[i];
        }
      }
      forall k | k in m'
        ensures FromKept(entries, k)
      {
        if k in m {
          assert FromKept(init, k);
          var i :| 0 <= i < n - 1 && Kept(init[i]) && (k == init[i].0 || k == Lower(init[i].0));
          assert entries[i] == init[i];
        } else {
          assert Kept(entries[n - 1]);
        }
      }
    }
  }

  /** The alias of a kept letter holds the strokes of some kept letter with the same
      lower-case form (the last one visited). */
  predicate AliasFromKept(entries: seq<(string, RawValue)>, m: Catalog, i: int)
    requires 0 <= i < |entries|
  {
    Lower(entries[i].0) in m
    && exists j :: 0 <= j < |entries| && Kept(entries[j])
         && Lower(entries[j].0) == Lower(entries[i].0) && m[Lower(entries[i].0)] == StrokesOf(entries[j].1)
  }

  /** One build step keeps the alias property of the letters visited before it and
      establishes it for the letter it visits. */
  lemma {:induction false} AliasStep(entries: seq<(string, RawValue)>, i: int)
    requires |entries| > 0 && 0 <= i < |entries| && Kept(entries[i])
    requires i < |entries| - 1 ==> AliasFromKept(entries[..|entries| - 1], BuildCatalog(entries[..|entries| - 1]), i)
    ensures AliasFromKept(entries, BuildCatalog(entries), i)
  {
    var n := |entries|;
    var init := entries[..n - 1];
    var last := entries[n - 1];
    var m := BuildCatalog(init);
    var m' := BuildCatalog(entries);
    assert m' == Insert(m, last);
    if Kept(last) && Lower(entries[i].0) == Lower(last.0) {
      LowerIdempotent(last.0);
      assert m'[Lower(last.0)] == StrokesOf(entries[n - 1].1);
    } else {
      assert entries[i] == init[i];
      var j :| 0 <= j < n - 1 && Kept(init[j]) && Lower(init[j].0) == Lower(init[i].0)
               && m[Lower(init[i].0)] == StrokesOf(init[j].1);
      if Kept(last) && Lower(entries[i].0) == last.0 {
        LowerIdempotent(entries[i].0);
        assert false;
      }
      assert entries[j] == init[j];
      assert m'[Lower(entries[i].0)] == m[Lower(entries[i].0)];
    }
  }

  /** Every kept letter's alias holds the strokes of a kept letter with the same lower-case form. */
  lemma {:induction false} BuildCatalogAliases(entries: seq<(string, RawValue)>)
    ensures forall i :: 0 <= i < |entries| && Kept(entries[i]) ==>
              AliasFromKept(entries, BuildCatalog(entries), i)
    decreases |entries|
  {
    if entries != [] {
      var n := |entries|;
      BuildCatalogAliases(entries[..n - 1]);
      forall i | 0 <= i < n && Kept(entries[i])
        ensures AliasFromKept(entries, BuildCatalog(entries), i)
      {
        if i < n - 1 {
          assert entries[..n - 1][i] == entries[i];
        }
        AliasStep(entries, i);
      }
    }
  }

  /** With the keys visited in sorted order, every kept letter serves exactly its own strokes:
      a later letter can only overwrite an alias, never an earlier letter's own key. */
  lemma {:induction false} BuildCatalogKeepsOwnStrokes(entries: seq<(string, RawValue)>)
    requires SortedKeys(entries)
    ensures forall i :: 0 <= i < |entries| && Kept(entries[i]) ==>
              entries[i].0 in BuildCatalog(entries)
              && BuildCatalog(entries)[entries[i].0] == StrokesOf(entries[i].1)
    decreases |entries|
  {
    if entries != [] {
      var n := |entries|;
      var init := entries[..n - 1];
      var last := entries[n - 1];
      BuildCatalogKeepsOwnStrokes(init);
      forall i | 0 <= i < n && Kept(entries[i])
        ensures entries[i].0 in BuildCatalog(entries)
                && BuildCatalog(entries)[entries[i].0] == StrokesOf(entries[i].1)
      {
        if i < n - 1 {
          assert entries[i] == init[i];
          assert Below(entries[i].0, last.0);
          if entries[i].0 == last.0 {
            BelowIrreflexive(last.0);
            assert false;
          }
          if Kept(last) && Lower(last.0) == entries[i].0 {
            LowerNotBelow(last.0);
            assert false;
          }
          assert BuildCatalog(entries)[entries[i].0] == BuildCatalog(init)[entries[i].0];
        }
      }
    }
  }

  /** A letter the animation can play: an upper-case key with at least one stroke. */
  predicate Playable(letters: Catalog, key: string) {
    key != "" && Upper(key) == key && key in letters && |letters[key]| > 0
  }
}
