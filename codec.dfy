/**
 * How a snapshot looks as JSON: the value `JSON.stringify` is given for the cache entries and
 * the build artifact, and the decoding that recovers the snapshot from it.
 */
module Codec {
  import opened Wrappers
  import opened Json
  import opened Normalizer

  function RowJson(row: Row): Json
  {
    Obj(map c | c in row :: Str(row[c]))
  }

  function InfoJson(info: Info): Json
  {
    Obj(map k | k in info :: RowJson(info[k]))
  }

  function SpeciesJson(species: seq<string>): Json
  {
    Arr(seq(|species|, i requires 0 <= i < |species| => Str(species[i])))
  }

  /** `{info, species}` as the build script writes it. */
  function SnapshotJson(s: Snapshot): Json
  {
    Obj(map["info" := InfoJson(s.info), "species" := SpeciesJson(s.species)])
  }

  predicate IsRowJson(v: Json)
  {
    v.Obj? && forall c :: c in v.fields ==> v.fields[c].Str?
  }

  function DecodeRow(v: Json): Option<Row>
  {
    if IsRowJson(v) then Some(map c | c in v.fields :: v.fields[c].s) else None
  }

  function DecodeInfo(v: Json): Option<Info>
  {
    if v.Obj? && forall k :: k in v.fields ==> IsRowJson(v.fields[k])
    then Some(map k | k in v.fields :: DecodeRow(v.fields[k]).value)
    else None
  }

  function DecodeSpecies(v: Json): Option<seq<string>>
  {
    if v.Arr? && forall i :: 0 <= i < |v.items| ==> v.items[i].Str?
    then Some(seq(|v.items|, i requires 0 <= i < |v.items| && v.items[i].Str? => v.items[i].s))
    else None
  }

  lemma RowRoundTrip(row: Row)
    ensures DecodeRow(RowJson(row)) == Some(row)
  {
    var v := RowJson(row);
    var d := map c | c in v.fields :: v.fields[c].s;
    assert d.Keys == row.Keys;
    assert d == row;
  }

  /** The JSON form of the records loses nothing, and it is truthy, so `||` defaulting
      never replaces it. */
  lemma InfoRoundTrip(info: Info)
    ensures DecodeInfo(InfoJson(info)) == Some(info)
    ensures Truthy(InfoJson(info))
  {
    var v := InfoJson(info);
    forall k | k in v.fields ensures IsRowJson(v.fields[k]) && DecodeRow(v.fields[k]).value == info[k] {
      RowRoundTrip(info[k]);
    }
    var d := map k | k in v.fields :: DecodeRow(v.fields[k]).value;
    assert d.Keys == info.Keys;
    assert d == info;
  }

  /** The JSON form of the species list loses nothing, and it is truthy even when empty. */
  lemma SpeciesRoundTrip(species: seq<string>)
    ensures DecodeSpecies(SpeciesJson(species)) == Some(species)
    ensures Truthy(SpeciesJson(species))
  {
    var v := SpeciesJson(species);
    assert forall i :: 0 <= i < |v.items| ==> v.items[i] == Str(species[i]);
    var d := DecodeSpecies(v).value;
    assert |d| == |species|;
    assert forall i :: 0 <= i < |d| ==> d[i] == species[i];
    assert d == species;
  }
}
