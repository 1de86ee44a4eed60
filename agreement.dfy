/** The runtime loop and the build loop compute the same snapshot. */
module Agreement {
  import opened Wrappers
  import opened Json
  import opened Normalizer
  import opened Codec
  import opened Http
  import UseAnimalData
  import BuildAnimals

  /** Given the same response, both copies fail alike or produce the same snapshot, and the
      mirror the build writes loads back as the snapshot the runtime path would fetch. */
  method BothCopiesAgree(res: Response)
    returns (runtime: Result<Snapshot, FetchError>, build: Result<BuildAnimals.BuildReport, FetchError>)
    ensures runtime.Success? <==> build.Success?
    ensures runtime.Failure? ==> runtime.error == build.error
    ensures runtime.Success? ==> runtime.value == build.value.out
    ensures runtime.Success? ==>
              UseAnimalData.LoadFromLocalMirror(Some(build.value.artifact))
              == UseAnimalData.Loaded(InfoJson(runtime.value.info), SpeciesJson(runtime.value.species))
  {
    runtime := UseAnimalData.FetchFromGoogle(res);
    build := BuildAnimals.BuildMirror(res);
    if runtime.Success? {
      UseAnimalData.MirrorOfBuildArtifact(runtime.value);
    }
  }
}
