/** Concrete sheets run through the normalization rules. */
module Scenarios {
  import opened Text
  import opened Normalizer

  /** A cell that neither starts nor ends with white space trims to itself. */
  lemma TrimOfClean(s: string)
    requires s != [] && !IsWhiteSpace(s[0]) && !IsWhiteSpace(s[|s| - 1])
    ensures Trim(s) == s
  {
    TrimStartKeeps(s);
    TrimEndKeeps(s);
  }

  lemma LowerExamples()
    ensures ToLower("Pig") == "pig" && ToLower("WILD_BOAR") == "wild_boar"
    ensures ToLower("wild_boar") == "wild_boar" && ToLower("Cat") == "cat" && ToLower("Dog") == "dog"
  {
    ToLowerPointwise("Pig");
    ToLowerPointwise("Cat");
    ToLowerPointwise("Dog");
    ToLowerPointwise("WILD_BOAR");
    ToLowerPointwise("wild_boar");
    assert ToLower("Pig") == "pig" by { var r := ToLower("Pig"); assert r[0] == 'p' && r[1] == 'i' && r[2] == 'g'; }
    assert ToLower("Cat") == "cat" by { var r := ToLower("Cat"); assert r[0] == 'c' && r[1] == 'a' && r[2] == 't'; }
    assert ToLower("Dog") == "dog" by { var r := ToLower("Dog"); assert r[0] == 'd' && r[1] == 'o' && r[2] == 'g'; }
    assert ToLower("WILD_BOAR") == "wild_boar" by {
      var r := ToLower("WILD_BOAR");
      assert r[0] == 'w' && r[1] == 'i' && r[2] == 'l' && r[3] == 'd' && r[4] == '_';
      assert r[5] == 'b' && r[6] == 'o' && r[7] == 'a' && r[8] == 'r';
    }
    assert ToLower("wild_boar") == "wild_boar" by {
      var r := ToLower("wild_boar");
      assert r[0] == 'w' && r[1] == 'i' && r[2] == 'l' && r[3] == 'd' && r[4] == '_';
      assert r[5] == 'b' && r[6] == 'o' && r[7] == 'a' && r[8] == 'r';
    }
  }

  /** " wild_boar " and "wild_boar " trim to "wild_boar". */
  lemma PaddedBoar()
    ensures Trim(" wild_boar ") == "wild_boar" && Trim("wild_boar ") == "wild_boar"
  {
    assert TrimStart(" wild_boar ") == "wild_boar " by {
      assert " wild_boar "[1..] == "wild_boar ";
      TrimStartKeeps("wild_boar ");
    }
    TrimStartKeeps("wild_boar ");
    assert TrimEnd("wild_boar ") == "wild_boar" by {
      assert "wild_boar "[..9] == "wild_boar";
      TrimEndKeeps("wild_boar");
    }
  }

  /** The merge rule after trim and lowercase: "Pig", "WILD_BOAR" and "wild_boar " become
      "pigs", "Cat" becomes "cat". */
  lemma TagExamples()
    ensures Tag(map["name" := "a", "species" := "Pig"]) == "pigs"
    ensures Tag(map["name" := "a", "species" := "WILD_BOAR"]) == "pigs"
    ensures Tag(map["name" := "a", "species" := "wild_boar "]) == "pigs"
    ensures Tag(map["name" := "a", "species" := "Cat"]) == "cat"
  {
    TrimOfClean("Pig");
    TrimOfClean("WILD_BOAR");
    TrimOfClean("Cat");
    PaddedBoar();
    LowerExamples();
  }

  /** What the rules make of each row of the example sheet. */
  lemma BellaRow(r: Row)
    requires r == map["name" := "Bella", "species" := "Cat"]
    ensures EffectOf(r) == Kept("Bella", "cat", r)
  {
    TrimOfClean("Bella");
    TrimOfClean("Cat");
    LowerExamples();
  }

  lemma MaxRow(r: Row)
    requires r == map["name" := "Max", "species" := "Dog"]
    ensures EffectOf(r) == Kept("Max", "dog", r)
  {
    TrimOfClean("Max");
    TrimOfClean("Dog");
    LowerExamples();
  }

  lemma NamelessRow(r: Row)
    requires r == map["name" := "", "species" := "Fish"]
    ensures EffectOf(r) == Skipped
  {
    assert Trim("") == "";
  }

  lemma RexRow(r: Row)
    requires r == map["name" := "Rex", "species" := " wild_boar "]
    ensures EffectOf(r) == Kept("Rex", "pigs", r)
  {
    TrimOfClean("Rex");
    PaddedBoar();
    LowerExamples();
  }

  /** The sheet "name,species / Bella,Cat / Max,Dog / ,Fish / Rex, wild_boar ": the row
      without a name is dropped. */
  lemma ExampleSheet(r0: Row, r1: Row, r2: Row, r3: Row)
    requires r0 == map["name" := "Bella", "species" := "Cat"]
    requires r1 == map["name" := "Max", "species" := "Dog"]
    requires r2 == map["name" := "", "species" := "Fish"]
    requires r3 == map["name" := "Rex", "species" := " wild_boar "]
    ensures Normalized([r0, r1, r2, r3])
            == Snapshot(map["Bella" := r0, "Max" := r1, "Rex" := r3], ["cat", "dog", "pigs"])
  {
    BellaRow(r0);
    MaxRow(r1);
    NamelessRow(r2);
    RexRow(r3);
    EffectsOfFour(r0, r1, r2, r3, Kept("Bella", "cat", r0), Kept("Max", "dog", r1), Skipped, Kept("Rex", "pigs", r3));
    SheetBuild(r0, r1, r3);
  }

  lemma EffectsOfFour(r0: Row, r1: Row, r2: Row, r3: Row, e0: Effect, e1: Effect, e2: Effect, e3: Effect)
    requires EffectOf(r0) == e0 && EffectOf(r1) == e1 && EffectOf(r2) == e2 && EffectOf(r3) == e3
    ensures Effects([r0, r1, r2, r3]) == [e0, e1, e2, e3]
  {
  }

  /** The example sheet's effects applied one by one. */
  lemma SheetBuild(r0: Row, r1: Row, r3: Row)
    ensures Build([Kept("Bella", "cat", r0), Kept("Max", "dog", r1), Skipped, Kept("Rex", "pigs", r3)])
            == Snapshot(map["Bella" := r0, "Max" := r1, "Rex" := r3], ["cat", "dog", "pigs"])
  {
    var e0, e1, e3 := Kept("Bella", "cat", r0), Kept("Max", "dog", r1), Kept("Rex", "pigs", r3);
    BuildSnoc([], e0);
    assert [] + [e0] == [e0];
    BuildSnoc([e0], e1);
    assert [e0] + [e1] == [e0, e1];
    BuildSnoc([e0, e1], Skipped);
    assert [e0, e1] + [Skipped] == [e0, e1, Skipped];
    BuildSnoc([e0, e1, Skipped], e3);
    assert [e0, e1, Skipped] + [e3] == [e0, e1, Skipped, e3];
  }

  lemma SpacedBellaRow(r: Row)
    requires r == map["name" := " Bella", "species" := "Dog"]
    ensures EffectOf(r) == Kept("Bella", "dog", r)
  {
    TrimOfClean("Bella");
    TrimOfClean("Dog");
    LowerExamples();
    assert Trim(" Bella") == "Bella" by {
      assert " Bella"[1..] == "Bella";
      TrimStartKeeps("Bella");
    }
  }

  lemma EffectsOfTwo(r0: Row, r1: Row, e0: Effect, e1: Effect)
    requires EffectOf(r0) == e0 && EffectOf(r1) == e1
    ensures Effects([r0, r1]) == [e0, e1]
  {
  }

  /** Two rows named "Bella" and " Bella": the record is the later row, yet both tags stay in
      `species`. */
  lemma DuplicateName(r0: Row, r1: Row)
    requires r0 == map["name" := "Bella", "species" := "Cat"]
    requires r1 == map["name" := " Bella", "species" := "Dog"]
    ensures Normalized([r0, r1]) == Snapshot(map["Bella" := r1], ["cat", "dog"])
  {
    BellaRow(r0);
    SpacedBellaRow(r1);
    EffectsOfTwo(r0, r1, Kept("Bella", "cat", r0), Kept("Bella", "dog", r1));
    DuplicateBuild(r0, r1);
  }

  /** A second record under the same name replaces the first; its new tag is appended. */
  lemma DuplicateBuild(r0: Row, r1: Row)
    ensures Build([Kept("Bella", "cat", r0), Kept("Bella", "dog", r1)])
            == Snapshot(map["Bella" := r1], ["cat", "dog"])
  {
    var e0, e1 := Kept("Bella", "cat", r0), Kept("Bella", "dog", r1);
    BuildSnoc([], e0);
    assert [] + [e0] == [e0];
    BuildSnoc([e0], e1);
    assert [e0] + [e1] == [e0, e1];
    assert map["Bella" := r0]["Bella" := r1] == map["Bella" := r1];
  }
}
