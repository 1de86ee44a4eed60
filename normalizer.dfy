/**
 * The row normalization rules shared by the runtime loader and the build script:
 * parsed CSV rows become a snapshot `{info, species}`.
 *
 * `Normalized` is the reference definition: each row's `Effect` applied in input order. The two
 * loops in `UseAnimalData.FetchFromGoogle` and `BuildAnimals.BuildMirror` are proved equal to it,
 * and the lemmas below say what it means: which rows are skipped, which row a name keeps,
 * and which species tags appear in which order.
 */
module Normalizer {
  import opened Text

  /** One parsed CSV line: column header to cell text. A missing column is an absent key. */
  type Row = map<string, string>

  /** Records keyed by trimmed name; each value is the whole raw row. */
  type Info = map<string, Row>

  /** `species` lists the Set's contents in insertion order (`Array.from(speciesSet)`). */
  datatype Snapshot = Snapshot(info: Info, species: seq<string>)

  const Empty: Snapshot := Snapshot(map[], [])

  /** The species merge rule, applied to the trimmed and lowercased cell. */
  function Canonical(raw: string): (tag: string)
    ensures tag == "pigs" <==> raw == "pig" || raw == "wild_boar" || raw == "pigs"
    ensures raw != "pig" && raw != "wild_boar" ==> tag == raw
  {
    if raw == "pig" || raw == "wild_boar" then "pigs" else raw
  }

  /** The trimmed `name` cell; a missing column reads as empty. */
  function Key(row: Row): string
  {
    if "name" in row then Trim(row["name"]) else ""
  }

  /** The trimmed, lowercased `species` cell; a missing column reads as empty. */
  function RawSpecies(row: Row): string
  {
    if "species" in row then ToLower(Trim(row["species"])) else ""
  }

  /** A row contributes to the snapshot only when both its name and its species are non-empty. */
  predicate Survives(row: Row)
  {
    Key(row) != "" && RawSpecies(row) != ""
  }

  function Tag(row: Row): string
  {
    Canonical(RawSpecies(row))
  }

  /** What one row contributes: nothing, or the record `row` under `name` and the tag `tag`. */
  datatype Effect = Skipped | Kept(name: string, tag: string, row: Row)

  function EffectOf(row: Row): Effect
  {
    if Survives(row) then Kept(Key(row), Tag(row), row) else Skipped
  }

  function Effects(rows: seq<Row>): seq<Effect>
  {
    seq(|rows|, i requires 0 <= i < |rows| => EffectOf(rows[i]))
  }

  /** `speciesSet.add(t)` on the Set's insertion-ordered contents. */
  function AddTag(tags: seq<string>, t: string): seq<string>
  {
    if t in tags then tags else tags + [t]
  }

  /** One effect applied: overwrite the record under its name, add its tag. */
  function Apply(s: Snapshot, e: Effect): Snapshot
  {
    match e
    case Skipped => s
    case Kept(name, tag, row) => Snapshot(s.info[name := row], AddTag(s.species, tag))
  }

  /** Effects applied in order, starting from the empty snapshot. */
  function Build(es: seq<Effect>): Snapshot
  {
    if es == [] then Empty else Apply(Build(es[..|es| - 1]), es[|es| - 1])
  }

  /** What one row does to a snapshot. */
  function Step(s: Snapshot, row: Row): Snapshot
  {
    Apply(s, EffectOf(row))
  }

  /** The snapshot of a row sequence: every row applied in input order. */
  function Normalized(rows: seq<Row>): Snapshot
  {
    Build(Effects(rows))
  }

  // ----- Independent descriptions of the result -----

  function NamesOf(es: seq<Effect>): set<string>
  {
    set e | e in es && e.Kept? :: e.name
  }

  function TagsOf(es: seq<Effect>): set<string>
  {
    set e | e in es && e.Kept? :: e.tag
  }

  /** The trimmed names of the surviving rows. */
  function Names(rows: seq<Row>): set<string>
  {
    NamesOf(Effects(rows))
  }

  /** The tags of the surviving rows, including rows whose record is later overwritten. */
  function Tags(rows: seq<Row>): set<string>
  {
    TagsOf(Effects(rows))
  }

  predicate NoDuplicates(s: seq<string>)
  {
    forall i, j :: 0 <= i < j < |s| ==> s[i] != s[j]
  }

  /** Index of the last effect that keeps a record named `k`, or -1 when there is none. */
  function LastWith(es: seq<Effect>, k: string): (i: int)
    ensures -1 <= i < |es|
    ensures 0 <= i ==> es[i].Kept? && es[i].name == k
    ensures forall j :: i < j < |es| ==> !(es[j].Kept? && es[j].name == k)
  {
    if es == [] then -1
    else if es[|es| - 1].Kept? && es[|es| - 1].name == k then |es| - 1
    else LastWith(es[..|es| - 1], k)
  }

  /** Index of the first effect that adds the tag `t`, or `|es|` when there is none. */
  function FirstWithTag(es: seq<Effect>, t: string): (i: nat)
    ensures i <= |es|
    ensures i < |es| ==> es[i].Kept? && es[i].tag == t
    ensures forall j :: 0 <= j < i ==> !(es[j].Kept? && es[j].tag == t)
  {
    if es == [] then 0
    else
      var f := FirstWithTag(es[..|es| - 1], t);
      if f < |es| - 1 then f
      else if es[|es| - 1].Kept? && es[|es| - 1].tag == t then |es| - 1
      else |es|
  }

  // ----- Lemmas about effects -----

  lemma BuildSnoc(es: seq<Effect>, e: Effect)
    ensures Build(es + [e]) == Apply(Build(es), e)
  {
    assert (es + [e])[..|es|] == es;
  }

  lemma NamesTagsSnoc(es: seq<Effect>, e: Effect)
    ensures NamesOf(es + [e]) == NamesOf(es) + (if e.Kept? then {e.name} else {})
    ensures TagsOf(es + [e]) == TagsOf(es) + (if e.Kept? then {e.tag} else {})
  {
    assert forall x :: x in es + [e] <==> x in es || x == e;
  }

  /** A tag has a first occurrence exactly when some effect carries it. */
  lemma FirstWithTagFound(es: seq<Effect>, t: string)
    ensures FirstWithTag(es, t) < |es| <==> t in TagsOf(es)
  {
    var f := FirstWithTag(es, t);
    if f < |es| {
      assert es[f] in es;
    }
    if t in TagsOf(es) {
      var e :| e in es && e.Kept? && e.tag == t;
      var i :| 0 <= i < |es| && es[i] == e;
    }
  }

  lemma {:induction false} BuildSkipInert(a: seq<Effect>, b: seq<Effect>)
    ensures Build(a + [Skipped] + b) == Build(a + b)
    decreases |b|
  {
    if b == [] {
      assert a + [Skipped] + b == a + [Skipped];
      assert a + b == a;
      BuildSnoc(a, Skipped);
    } else {
      var b', x := b[..|b| - 1], b[|b| - 1];
      BuildSkipInert(a, b');
      assert a + [Skipped] + b == (a + [Skipped] + b') + [x];
      assert a + b == (a + b') + [x];
      BuildSnoc(a + [Skipped] + b', x);
      BuildSnoc(a + b', x);
    }
  }

  lemma {:induction false} BuildLastWrite(es: seq<Effect>)
    ensures Build(es).info.Keys == NamesOf(es)
    ensures forall k :: k in Build(es).info ==>
              0 <= LastWith(es, k) && Build(es).info[k] == es[LastWith(es, k)].row
  {
    if es != [] {
      var p, e := es[..|es| - 1], es[|es| - 1];
      assert es == p + [e];
      BuildLastWrite(p);
      NamesTagsSnoc(p, e);
      var info, prev := Build(es).info, Build(p).info;
      forall k | k in info
        ensures 0 <= LastWith(es, k) && info[k] == es[LastWith(es, k)].row
      {
        if !(e.Kept? && e.name == k) {
          assert LastWith(es, k) == LastWith(p, k);
          assert info[k] == prev[k];
        }
      }
    }
  }

  lemma {:induction false} BuildSpecies(es: seq<Effect>)
    ensures NoDuplicates(Build(es).species)
    ensures forall t :: t in Build(es).species <==> t in TagsOf(es)
    ensures forall i, j :: 0 <= i < j < |Build(es).species| ==>
              FirstWithTag(es, Build(es).species[i]) < FirstWithTag(es, Build(es).species[j])
  {
    if es != [] {
      var p, e := es[..|es| - 1], es[|es| - 1];
      assert es == p + [e];
      BuildSpecies(p);
      NamesTagsSnoc(p, e);
      var sp, old_sp := Build(es).species, Build(p).species;
      forall t | t in old_sp ensures FirstWithTag(es, t) == FirstWithTag(p, t) < |p| {
        FirstWithTagFound(p, t);
      }
      if sp != old_sp {
        var t := e.tag;
        assert e.Kept? && t !in old_sp && sp == old_sp + [t];
        FirstWithTagFound(p, t);
        assert FirstWithTag(es, t) == |p|;
        forall i, j | 0 <= i < j < |sp|
          ensures FirstWithTag(es, sp[i]) < FirstWithTag(es, sp[j])
        {
          assert sp[i] in old_sp;
          if j < |old_sp| {
            assert sp[j] in old_sp;
          }
        }
      }
    }
  }

  // ----- Lemmas about rows -----

  lemma EffectsSnoc(p: seq<Row>, r: Row)
    ensures Effects(p + [r]) == Effects(p) + [EffectOf(r)]
  {
  }

  lemma EffectsAppend(a: seq<Row>, b: seq<Row>)
    ensures Effects(a + b) == Effects(a) + Effects(b)
  {
  }

  /** The loop step: one more row is one more `Step`. */
  lemma NormalizedSnoc(p: seq<Row>, r: Row)
    ensures Normalized(p + [r]) == Step(Normalized(p), r)
  {
    EffectsSnoc(p, r);
    BuildSnoc(Effects(p), EffectOf(r));
  }

  /** A row with an empty trimmed name or an empty trimmed, lowercased species changes
      neither `info` nor `species`, wherever it stands in the input. */
  lemma SkippedRowIsInert(a: seq<Row>, r: Row, b: seq<Row>)
    requires !Survives(r)
    ensures Normalized(a + [r] + b) == Normalized(a + b)
  {
    EffectsAppend(a + [r], b);
    EffectsSnoc(a, r);
    EffectsAppend(a, b);
    BuildSkipInert(Effects(a), Effects(b));
  }

  /** `info` has exactly the surviving names as keys, and each holds the whole raw row of the
      last surviving row with that name (last write wins). */
  lemma InfoIsLastWrite(rows: seq<Row>)
    ensures Normalized(rows).info.Keys == Names(rows)
    ensures forall k :: k in Normalized(rows).info ==>
              var i := LastWith(Effects(rows), k);
              0 <= i && Survives(rows[i]) && Key(rows[i]) == k && Normalized(rows).info[k] == rows[i]
  {
    BuildLastWrite(Effects(rows));
  }

  /** `species` lists every tag of a surviving row exactly once, including rows whose record
      was overwritten, in the order in which the tags first occur. */
  lemma SpeciesInFirstOccurrenceOrder(rows: seq<Row>)
    ensures NoDuplicates(Normalized(rows).species)
    ensures forall t :: t in Normalized(rows).species <==> t in Tags(rows)
    ensures forall i, j :: 0 <= i < j < |Normalized(rows).species| ==>
              FirstWithTag(Effects(rows), Normalized(rows).species[i])
              < FirstWithTag(Effects(rows), Normalized(rows).species[j])
  {
    BuildSpecies(Effects(rows));
  }

  /** Every record's own species tag is in `species` (the snapshot invariant). */
  lemma EveryRecordTagged(rows: seq<Row>)
    ensures forall k :: k in Normalized(rows).info ==> Tag(Normalized(rows).info[k]) in Normalized(rows).species
  {
    InfoIsLastWrite(rows);
    SpeciesInFirstOccurrenceOrder(rows);
    var es := Effects(rows);
    forall k | k in Normalized(rows).info
      ensures Tag(Normalized(rows).info[k]) in Tags(rows)
    {
      var i := LastWith(es, k);
      assert es[i] in es;
    }
  }

  /** `Object.keys(info).length` is the number of distinct trimmed names among surviving rows. */
  lemma EntryCount(rows: seq<Row>)
    ensures |Normalized(rows).info| == |Names(rows)|
  {
    InfoIsLastWrite(rows);
    assert |Normalized(rows).info| == |Normalized(rows).info.Keys|;
  }
}
