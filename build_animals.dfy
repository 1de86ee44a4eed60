/** The build script: fetch the sheet, normalize it with a `for...of` loop, write the mirror. */
module BuildAnimals {
  import opened Wrappers
  import opened Text
  import opened Json
  import opened Normalizer
  import opened Codec
  import opened Http

  /** What `main` produces: the snapshot, the JSON written to the mirror file, and the entry
      count it logs. */
  datatype BuildReport = BuildReport(out: Snapshot, artifact: Json, entries: nat)

  /** `main`: an unsuccessful response is an error carrying its status (the script then exits
      with status 1); otherwise the rows are normalized and the artifact is `{info, species}`,
      with one logged entry per distinct trimmed name among the surviving rows. */
  method BuildMirror(res: Response) returns (r: Result<BuildReport, FetchError>)
    ensures !res.ok ==> r == Failure(HttpStatus(res.status))
    ensures res.ok ==> r.Success? && r.value.out == Normalized(res.rows)
    ensures r.Success? ==> r.value.artifact == SnapshotJson(r.value.out)
    ensures r.Success? ==> r.value.entries == |Names(res.rows)|
  {
    if !res.ok {
      return Failure(HttpStatus(res.status));
    }
    var rows := res.rows;
    var info: Info := map[];
    var speciesSet: seq<string> := [];
    for i := 0 to |rows|
      invariant Snapshot(info, speciesSet) == Normalized(rows[..i])
    {
      var row := rows[i];
      assert rows[..i + 1] == rows[..i] + [row];
      NormalizedSnoc(rows[..i], row);
      var name: Option<string> := if "name" in row then Some(Trim(row["name"])) else None;
      // row.species?.trim()?.toLowerCase(): the second `?.` sees the string `trim` returned
      var trimmed: Option<string> := if "species" in row then Some(Trim(row["species"])) else None;
      var rawSpecies: Option<string> := if trimmed.Some? then Some(ToLower(trimmed.value)) else None;
      if name.None? || name.value == "" || rawSpecies.None? || rawSpecies.value == "" {
        continue;
      }
      var species := rawSpecies.value;
      if species == "pig" || species == "wild_boar" {
        species := "pigs";
      }
      info := info[name.value := row];
      if species !in speciesSet {
        speciesSet := speciesSet + [species];
      }
    }
    assert rows[..|rows|] == rows;
    var out := Snapshot(info, speciesSet);
    EntryCount(rows);
    return Success(BuildReport(out, SnapshotJson(out), |info|));
  }
}
