/**
 * The rows the sprite ingester writes for each sprite table, over a listing
 * of the sprite tree. Each generator walks the directories its glob
 * selects, keeps the image files whose stem parses, and appends one row per
 * file (one per version for version sprites), counting them in `subrows`.
 * A path is kept as its components relative to the sprite root; the CSV
 * cell is those components joined with `/`.
 */
module SpriteRows {
  import opened Wrappers
  import opened Text
  import opened Seqs
  import opened SpritePaths
  import opened VersionMatch

  const PokemonParts: seq<string> := ["pokemon"]
  const OtherParts: seq<string> := ["pokemon", "other"]
  const OfficialParts: seq<string> := ["pokemon", "other", "official-artwork"]
  const ShinyParts: seq<string> := ["pokemon", "other", "official-artwork", "shiny"]
  const VersionsParts: seq<string> := ["pokemon", "versions"]
  const HandledDirs: set<string> := {"versions", "other"}

  /** The last component of a directory, `Path.name`. */
  function DirName(d: Dir): string
  {
    if d.parts == [] then "" else d.parts[|d.parts| - 1]
  }

  // ---- _generate_sprites_csv ----

  datatype SpriteRow = SpriteRow(path: seq<string>, pokemonId: int, variant: string)

  function SpriteFileRows(d: Dir, name: string): seq<SpriteRow>
  {
    var parsed := ParseIdAndVariant(Stem(name));
    if parsed.None? then []
    else [SpriteRow(d.parts + [name], parsed.value.0, if parsed.value.1.Some? then parsed.value.1.value else "")]
  }

  function SpriteFileRowsOf(d: Dir): string -> seq<SpriteRow> { name => SpriteFileRows(d, name) }

  /** Every directory under `pokemon`, itself included (a recursive glob). */
  function SpriteDirRows(d: Dir): seq<SpriteRow>
  {
    if IsPrefix(PokemonParts, d.parts) then Concat(ImageFiles(d), SpriteFileRowsOf(d)) else []
  }

  function SpriteRows(listing: seq<Dir>): seq<SpriteRow>
  {
    Concat(listing, SpriteDirRows)
  }

  /** The rows of the image files of one directory under `pokemon`. */
  method SpriteDirCsv(d: Dir) returns (rows: seq<SpriteRow>)
    requires IsPrefix(PokemonParts, d.parts)
    ensures rows == SpriteDirRows(d)
  {
    rows := [];
    var files := ImageFiles(d);
    for j := 0 to |files|
      invariant rows == Concat(files[..j], SpriteFileRowsOf(d))
    {
      ConcatStep(files, j, SpriteFileRowsOf(d));
      var parsed := ParseIdAndVariant(Stem(files[j]));
      if parsed.Some? {
        var (pid, variant) := parsed.value;
        rows := rows + [SpriteRow(d.parts + [files[j]], pid, if variant.Some? then variant.value else "")];
      }
      assert rows == Concat(files[..j], SpriteFileRowsOf(d)) + SpriteFileRows(d, files[j]);
    }
    assert files[..|files|] == files;
  }

  method GenerateSpritesCsv(listing: seq<Dir>) returns (rows: seq<SpriteRow>, subrows: nat)
    ensures rows == SpriteRows(listing) && subrows == |rows|
  {
    rows, subrows := [], 0;
    for i := 0 to |listing|
      invariant rows == Concat(listing[..i], SpriteDirRows) && subrows == |rows|
    {
      ConcatStep(listing, i, SpriteDirRows);
      if IsPrefix(PokemonParts, listing[i].parts) {
        var dirRows := SpriteDirCsv(listing[i]);
        rows := rows + dirRows;
        subrows := subrows + |dirRows|;
      }
    }
    assert listing[..|listing|] == listing;
  }

  /** A sprite row names an image file under `pokemon` whose stem parses to
      the row's positive id and variant, with `''` standing for no variant. */
  predicate SpriteRowSound(r: SpriteRow)
  {
    |r.path| >= 2 && r.path[0] == "pokemon" && IsImage(r.path[|r.path| - 1]) && r.pokemonId > 0 &&
    ParseIdAndVariant(Stem(r.path[|r.path| - 1])) == Some((r.pokemonId, if r.variant == "" then None else Some(r.variant)))
  }

  lemma SpriteFileRowsSound(d: Dir, name: string)
    requires IsPrefix(PokemonParts, d.parts) && IsImage(name)
    ensures forall r :: r in SpriteFileRows(d, name) ==> SpriteRowSound(r)
  {
    if SpriteFileRows(d, name) != [] {
      var r := SpriteFileRows(d, name)[0];
      assert r.path == d.parts + [name];
      assert r.path[0] == d.parts[0];
    }
  }

  lemma SpriteDirRowsSound(d: Dir)
    ensures forall r :: r in SpriteDirRows(d) ==> SpriteRowSound(r)
  {
    if IsPrefix(PokemonParts, d.parts) {
      var files := ImageFiles(d);
      forall j | 0 <= j < |files|
        ensures forall r :: r in SpriteFileRowsOf(d)(files[j]) ==> SpriteRowSound(r)
      {
        SpriteFileRowsSound(d, files[j]);
      }
      ConcatAll(files, SpriteFileRowsOf(d), SpriteRowSound);
    }
  }

  /** Every sprite row is sound. */
  lemma SpriteRowsSound(listing: seq<Dir>)
    ensures forall r :: r in SpriteRows(listing) ==> SpriteRowSound(r)
  {
    forall i | 0 <= i < |listing|
      ensures forall r :: r in SpriteDirRows(listing[i]) ==> SpriteRowSound(r)
    {
      SpriteDirRowsSound(listing[i]);
    }
    ConcatAll(listing, SpriteDirRows, SpriteRowSound);
  }

  /** Every image file under `pokemon` whose stem parses has a row. */
  lemma SpriteRowsComplete(listing: seq<Dir>, i: nat, name: string)
    requires i < |listing| && IsPrefix(PokemonParts, listing[i].parts)
    requires name in listing[i].files && IsImage(name) && IsValidSprite(name)
    ensures exists r :: r in SpriteRows(listing) && r.path == listing[i].parts + [name]
  {
    var d := listing[i];
    var j :| 0 <= j < |ImageFiles(d)| && ImageFiles(d)[j] == name;
    var r := SpriteFileRows(d, name)[0];
    ConcatMember(ImageFiles(d), SpriteFileRowsOf(d), r);
    ConcatMember(listing, SpriteDirRows, r);
  }

  // ---- _generate_official_artwork_csv ----

  datatype OfficialRow = OfficialRow(path: seq<string>, isShiny: bool)

  /** `_itr_image_files` of the directory with the given components; a
      directory that is not there has no files. */
  function FilesOf(listing: seq<Dir>, parts: seq<string>): seq<string>
  {
    if listing == [] then []
    else if listing[0].parts == parts then ImageFiles(listing[0])
    else FilesOf(listing[1..], parts)
  }

  function OfficialFileRows(parts: seq<string>, isShiny: bool, name: string): seq<OfficialRow>
  {
    if IsValidSprite(name) then [OfficialRow(parts + [name], isShiny)] else []
  }

  function OfficialFileRowsOf(parts: seq<string>, isShiny: bool): string -> seq<OfficialRow>
  {
    name => OfficialFileRows(parts, isShiny, name)
  }

  /** The files directly in `official-artwork`: none of them has the `shiny`
      directory as its parent, so the source's parent test never skips one. */
  function OfficialBaseRows(listing: seq<Dir>): seq<OfficialRow>
  {
    Concat(FilesOf(listing, OfficialParts), OfficialFileRowsOf(OfficialParts, false))
  }

  function OfficialShinyRows(listing: seq<Dir>): seq<OfficialRow>
  {
    Concat(FilesOf(listing, ShinyParts), OfficialFileRowsOf(ShinyParts, true))
  }

  function OfficialRows(listing: seq<Dir>): seq<OfficialRow>
  {
    OfficialBaseRows(listing) + OfficialShinyRows(listing)
  }

  /** The rows of the valid sprites among `files`, all in one directory. */
  method OfficialDirCsv(parts: seq<string>, isShiny: bool, files: seq<string>) returns (rows: seq<OfficialRow>)
    ensures rows == Concat(files, OfficialFileRowsOf(parts, isShiny))
  {
    rows := [];
    for j := 0 to |files|
      invariant rows == Concat(files[..j], OfficialFileRowsOf(parts, isShiny))
    {
      ConcatStep(files, j, OfficialFileRowsOf(parts, isShiny));
      if IsValidSprite(files[j]) {
        rows := rows + [OfficialRow(parts + [files[j]], isShiny)];
      }
    }
    assert files[..|files|] == files;
  }

  method GenerateOfficialArtworkCsv(listing: seq<Dir>) returns (rows: seq<OfficialRow>, subrows: nat)
    ensures rows == OfficialRows(listing) && subrows == |rows|
  {
    var base := OfficialDirCsv(OfficialParts, false, FilesOf(listing, OfficialParts));
    var shiny := OfficialDirCsv(ShinyParts, true, FilesOf(listing, ShinyParts));
    rows := base + shiny;
    subrows := |base| + |shiny|;
  }

  /** An official row names a valid sprite directly in `official-artwork`,
      or in `official-artwork/shiny` when it is shiny. */
  predicate OfficialRowFrom(r: OfficialRow)
  {
    |r.path| >= 1 && r.path[..|r.path| - 1] == (if r.isShiny then ShinyParts else OfficialParts) &&
    IsValidSprite(r.path[|r.path| - 1])
  }

  /** An official row of a valid sprite directly in the directory `parts`. */
  predicate OfficialRowIn(r: OfficialRow, parts: seq<string>, isShiny: bool)
  {
    r.isShiny == isShiny && |r.path| >= 1 && r.path[..|r.path| - 1] == parts && IsValidSprite(r.path[|r.path| - 1])
  }

  lemma OfficialFilePart(parts: seq<string>, isShiny: bool, name: string, r: OfficialRow)
    requires r in OfficialFileRows(parts, isShiny, name)
    ensures OfficialRowIn(r, parts, isShiny)
  {
    assert IsValidSprite(name) && r == OfficialRow(parts + [name], isShiny);
    assert r.path[..|r.path| - 1] == parts && r.path[|r.path| - 1] == name;
  }

  lemma OfficialPart(files: seq<string>, parts: seq<string>, isShiny: bool)
    ensures forall r :: r in Concat(files, OfficialFileRowsOf(parts, isShiny)) ==> OfficialRowIn(r, parts, isShiny)
  {
    var f := OfficialFileRowsOf(parts, isShiny);
    forall r | r in Concat(files, f)
      ensures OfficialRowIn(r, parts, isShiny)
    {
      ConcatMember(files, f, r);
      var j :| 0 <= j < |files| && r in f(files[j]);
      assert f(files[j]) == OfficialFileRows(parts, isShiny, files[j]);
      OfficialFilePart(parts, isShiny, files[j], r);
    }
  }

  /** All the non-shiny artwork comes first, then all the shiny artwork, and
      every row comes from the directory its shininess names. */
  lemma OfficialRowsOrder(listing: seq<Dir>)
    ensures forall i :: 0 <= i < |OfficialRows(listing)| ==>
      (OfficialRows(listing)[i].isShiny <==> i >= |OfficialBaseRows(listing)|) && OfficialRowFrom(OfficialRows(listing)[i])
  {
    var base := OfficialBaseRows(listing);
    var shiny := OfficialShinyRows(listing);
    OfficialPart(FilesOf(listing, OfficialParts), OfficialParts, false);
    OfficialPart(FilesOf(listing, ShinyParts), ShinyParts, true);
    var rows := base + shiny;
    forall i | 0 <= i < |rows|
      ensures (rows[i].isShiny <==> i >= |base|) && OfficialRowFrom(rows[i])
    {
      if i < |base| {
        assert rows[i] == base[i] && base[i] in base;
      } else {
        assert rows[i] == shiny[i - |base|] && shiny[i - |base|] in shiny;
      }
    }
  }

  // ---- _generate_default_sprite_csv ----

  datatype DefaultRow = DefaultRow(path: seq<string>, isShiny: bool, isFemale: bool, isBack: bool, isLowRes: bool)

  /** Whether some component of a path is `versions` or `other`. */
  predicate HasHandledPart(parts: seq<string>)
  {
    exists i :: 0 <= i < |parts| && parts[i] in HandledDirs
  }

  /** The row of one sprite file: its path and the flags its components set. */
  function DefaultRowOf(path: seq<string>): DefaultRow
  {
    var flags := ExtractFlags(path);
    DefaultRow(path, flags.shiny, flags.female, flags.back, flags.lowRes)
  }

  function DefaultFileRows(d: Dir, name: string): seq<DefaultRow>
  {
    if IsValidSprite(name) then [DefaultRowOf(d.parts + [name])] else []
  }

  function DefaultFileRowsOf(d: Dir): string -> seq<DefaultRow> { name => DefaultFileRows(d, name) }

  function DefaultDirRows(d: Dir): seq<DefaultRow>
  {
    if IsPrefix(PokemonParts, d.parts) && !HasHandledPart(d.parts) then Concat(ImageFiles(d), DefaultFileRowsOf(d)) else []
  }

  function DefaultRows(listing: seq<Dir>): seq<DefaultRow>
  {
    Concat(listing, DefaultDirRows)
  }

  /** The rows of the valid sprites among `files`, all in directory `d`. */
  method DefaultDirCsv(d: Dir, files: seq<string>) returns (rows: seq<DefaultRow>)
    ensures rows == Concat(files, DefaultFileRowsOf(d))
  {
    rows := [];
    for j := 0 to |files|
      invariant rows == Concat(files[..j], DefaultFileRowsOf(d))
    {
      ConcatStep(files, j, DefaultFileRowsOf(d));
      if IsValidSprite(files[j]) {
        var path := d.parts + [files[j]];
        assert DefaultFileRowsOf(d)(files[j]) == [DefaultRowOf(path)];
        rows := rows + [DefaultRowOf(path)];
      } else {
        assert DefaultFileRowsOf(d)(files[j]) == [];
      }
    }
    assert files[..|files|] == files;
  }

  method GenerateDefaultSpriteCsv(listing: seq<Dir>) returns (rows: seq<DefaultRow>, subrows: nat)
    ensures rows == DefaultRows(listing) && subrows == |rows|
  {
    rows, subrows := [], 0;
    for i := 0 to |listing|
      invariant rows == Concat(listing[..i], DefaultDirRows) && subrows == |rows|
    {
      ConcatStep(listing, i, DefaultDirRows);
      if IsPrefix(PokemonParts, listing[i].parts) && !HasHandledPart(listing[i].parts) {
        var dirRows := DefaultDirCsv(listing[i], ImageFiles(listing[i]));
        rows := rows + dirRows;
        subrows := subrows + |dirRows|;
      }
    }
    assert listing[..|listing|] == listing;
  }

  /** A default row lies under no `versions` or `other` directory, and each
      flag says whether its keyword is a component of the row's path. */
  predicate DefaultRowSound(r: DefaultRow)
  {
    !HasHandledPart(r.path) &&
    r.isShiny == ("shiny" in r.path) && r.isFemale == ("female" in r.path) &&
    r.isBack == ("back" in r.path) && r.isLowRes == ("lowres" in r.path)
  }

  lemma DefaultFileRowsSound(d: Dir, name: string)
    requires !HasHandledPart(d.parts) && IsImage(name)
    ensures forall r :: r in DefaultFileRows(d, name) ==> DefaultRowSound(r)
  {
    var path := d.parts + [name];
    ImageNameHasDot(name);
    forall i | 0 <= i < |path|
      ensures path[i] !in HandledDirs
    {
      if i < |d.parts| {
        assert path[i] == d.parts[i];
      }
    }
  }

  lemma DefaultDirRowsSound(d: Dir)
    ensures forall r :: r in DefaultDirRows(d) ==> DefaultRowSound(r)
  {
    if IsPrefix(PokemonParts, d.parts) && !HasHandledPart(d.parts) {
      var files := ImageFiles(d);
      forall j | 0 <= j < |files|
        ensures forall r :: r in DefaultFileRowsOf(d)(files[j]) ==> DefaultRowSound(r)
      {
        DefaultFileRowsSound(d, files[j]);
      }
      ConcatAll(files, DefaultFileRowsOf(d), DefaultRowSound);
    }
  }

  /** Every default row is sound. */
  lemma DefaultRowsSkipHandled(listing: seq<Dir>)
    ensures forall r :: r in DefaultRows(listing) ==> DefaultRowSound(r)
  {
    forall i | 0 <= i < |listing|
      ensures forall r :: r in DefaultDirRows(listing[i]) ==> DefaultRowSound(r)
    {
      DefaultDirRowsSound(listing[i]);
    }
    ConcatAll(listing, DefaultDirRows, DefaultRowSound);
  }

  // ---- _generate_misc_sprite_csv ----

  datatype MiscRow = MiscRow(path: seq<string>, category: string, isFemale: bool, isShiny: bool, isBack: bool)

  /** A file's row: its category is the first component below
      `pokemon/other`, and its flags come from the components below it. */
  function MiscFileRows(d: Dir, name: string): seq<MiscRow>
    requires IsPrefix(OtherParts, d.parts)
  {
    if IsValidSprite(name) then [MiscRowOf(d.parts + [name])] else []
  }

  function MiscRowOf(path: seq<string>): MiscRow
    requires |path| > |OtherParts|
  {
    var rel := path[|OtherParts|..];
    var flags := ExtractFlags(rel);
    MiscRow(path, rel[0], flags.female, flags.shiny, flags.back)
  }

  function MiscFileRowsOf(d: Dir): string -> seq<MiscRow>
    requires IsPrefix(OtherParts, d.parts)
  {
    name => MiscFileRows(d, name)
  }

  /** Every directory under `pokemon/other`, itself included, except one
      whose own name is `official-artwork`. */
  function MiscDirRows(d: Dir): seq<MiscRow>
  {
    if IsPrefix(OtherParts, d.parts) && DirName(d) != "official-artwork" then Concat(ImageFiles(d), MiscFileRowsOf(d)) else []
  }

  function MiscRows(listing: seq<Dir>): seq<MiscRow>
  {
    Concat(listing, MiscDirRows)
  }

  method MiscDirCsv(d: Dir, files: seq<string>) returns (rows: seq<MiscRow>)
    requires IsPrefix(OtherParts, d.parts)
    ensures rows == Concat(files, MiscFileRowsOf(d))
  {
    rows := [];
    for j := 0 to |files|
      invariant rows == Concat(files[..j], MiscFileRowsOf(d))
    {
      ConcatStep(files, j, MiscFileRowsOf(d));
      if IsValidSprite(files[j]) {
        var path := d.parts + [files[j]];
        assert MiscFileRowsOf(d)(files[j]) == [MiscRowOf(path)];
        rows := rows + [MiscRowOf(path)];
      } else {
        assert MiscFileRowsOf(d)(files[j]) == [];
      }
    }
    assert files[..|files|] == files;
  }

  method GenerateMiscSpriteCsv(listing: seq<Dir>) returns (rows: seq<MiscRow>, subrows: nat)
    ensures rows == MiscRows(listing) && subrows == |rows|
  {
    rows, subrows := [], 0;
    for i := 0 to |listing|
      invariant rows == Concat(listing[..i], MiscDirRows) && subrows == |rows|
    {
      ConcatStep(listing, i, MiscDirRows);
      if IsPrefix(OtherParts, listing[i].parts) && DirName(listing[i]) != "official-artwork" {
        var dirRows := MiscDirCsv(listing[i], ImageFiles(listing[i]));
        rows := rows + dirRows;
        subrows := subrows + |dirRows|;
      }
    }
    assert listing[..|listing|] == listing;
  }

  /** A misc row lies under `pokemon/other`, its category is the component
      right below it, its directory is not named `official-artwork`, and its
      flags are those of the components below `pokemon/other`. */
  predicate MiscRowSound(r: MiscRow)
  {
    |r.path| > 2 && r.path[..2] == OtherParts && r.category == r.path[2] &&
    r.path[|r.path| - 2] != "official-artwork" &&
    r.isShiny == ("shiny" in r.path[2..]) && r.isFemale == ("female" in r.path[2..]) && r.isBack == ("back" in r.path[2..])
  }

  lemma MiscFileRowsSound(d: Dir, name: string)
    requires IsPrefix(OtherParts, d.parts) && DirName(d) != "official-artwork"
    ensures forall r :: r in MiscFileRows(d, name) ==> MiscRowSound(r)
  {
    if MiscFileRows(d, name) != [] {
      var r := MiscFileRows(d, name)[0];
      assert r.path == d.parts + [name];
      assert r.path[..2] == d.parts[..2];
      assert r.path[|r.path| - 2] == DirName(d);
    }
  }

  lemma MiscDirRowsSound(d: Dir)
    ensures forall r :: r in MiscDirRows(d) ==> MiscRowSound(r)
  {
    if IsPrefix(OtherParts, d.parts) && DirName(d) != "official-artwork" {
      var files := ImageFiles(d);
      forall j | 0 <= j < |files|
        ensures forall r :: r in MiscFileRowsOf(d)(files[j]) ==> MiscRowSound(r)
      {
        MiscFileRowsSound(d, files[j]);
      }
      ConcatAll(files, MiscFileRowsOf(d), MiscRowSound);
    }
  }

  /** Every misc row is sound. */
  lemma MiscRowsCategory(listing: seq<Dir>)
    ensures forall r :: r in MiscRows(listing) ==> MiscRowSound(r)
  {
    forall i | 0 <= i < |listing|
      ensures forall r :: r in MiscDirRows(listing[i]) ==> MiscRowSound(r)
    {
      MiscDirRowsSound(listing[i]);
    }
    ConcatAll(listing, MiscDirRows, MiscRowSound);
  }

  /** As written, the skip tests only a directory's own name, so the shiny
      official artwork in `official-artwork/shiny` is also written as a misc
      sprite, with category `official-artwork`. */
  lemma MiscIncludesShinyOfficialArtwork()
    ensures MiscRows([Dir(ShinyParts, ["25.png"])]) ==
      [MiscRow(ShinyParts + ["25.png"], "official-artwork", false, true, false)]
  {
    var d := Dir(ShinyParts, ["25.png"]);
    MiscRowsOfShinyDir(d);
    MiscRowOfShiny();
  }

  lemma MiscRowsOfShinyDir(d: Dir)
    requires d == Dir(ShinyParts, ["25.png"])
    ensures MiscRows([d]) == [MiscRowOf(ShinyParts + ["25.png"])]
  {
    SpriteTwentyFive(d);
    assert Concat([d], MiscDirRows) == MiscDirRows(d) by { assert [d][..0] == []; }
    assert IsPrefix(OtherParts, d.parts);
    assert Concat(["25.png"], MiscFileRowsOf(d)) == MiscFileRows(d, "25.png") by { assert ["25.png"][..0] == []; }
  }

  lemma MiscRowOfShiny()
    ensures MiscRowOf(ShinyParts + ["25.png"]) == MiscRow(ShinyParts + ["25.png"], "official-artwork", false, true, false)
  {
    var path := ShinyParts + ["25.png"];
    assert path[2..] == ["official-artwork", "shiny", "25.png"];
  }

  /** `25.png` is a valid sprite, and the only image of a directory holding
      just that file. */
  lemma SpriteTwentyFive(d: Dir)
    requires d.files == ["25.png"]
    ensures IsValidSprite("25.png") && ImageFiles(d) == ["25.png"]
  {
    StemOfImage("25", ".png");
    assert "25.png" == "25" + ".png";
    ParseDigitsThenRest("25", "");
    assert "25" + "" == "25";
    assert ["25.png"][..0] == [];
  }

  /** The evidently intended misc rows: nothing from the `official-artwork`
      subtree, which the official-artwork table covers. */
  function MiscDirRowsIntended(d: Dir): seq<MiscRow>
  {
    if IsPrefix(OtherParts, d.parts) && DirName(d) != "official-artwork" && !(|d.parts| > 2 && d.parts[2] == "official-artwork")
    then Concat(ImageFiles(d), MiscFileRowsOf(d)) else []
  }

  function MiscRowsIntended(listing: seq<Dir>): seq<MiscRow>
  {
    Concat(listing, MiscDirRowsIntended)
  }

  predicate NotOfficialArtwork(r: MiscRow) { r.category != "official-artwork" }

  lemma MiscFileRowsIntended(d: Dir, name: string)
    requires IsPrefix(OtherParts, d.parts) && !(|d.parts| > 2 && d.parts[2] == "official-artwork") && IsImage(name)
    ensures forall r :: r in MiscFileRows(d, name) ==> NotOfficialArtwork(r)
  {
    var path := d.parts + [name];
    assert MiscRowOf(path).category == path[2];
    if |d.parts| == 2 {
      assert path[2] == name;
      ImageNameHasDot(name);
    } else {
      assert path[2] == d.parts[2];
    }
  }

  lemma MiscDirRowsIntendedSound(d: Dir)
    ensures forall r :: r in MiscDirRowsIntended(d) ==> NotOfficialArtwork(r) && r in MiscDirRows(d)
  {
    if MiscDirRowsIntended(d) != [] {
      var files := ImageFiles(d);
      forall j | 0 <= j < |files|
        ensures forall r :: r in MiscFileRowsOf(d)(files[j]) ==> NotOfficialArtwork(r)
      {
        MiscFileRowsIntended(d, files[j]);
      }
      ConcatAll(files, MiscFileRowsOf(d), NotOfficialArtwork);
    }
  }

  /** The intended rows are misc rows as written, and none of them is
      official artwork. */
  lemma MiscRowsIntendedExcludeOfficialArtwork(listing: seq<Dir>)
    ensures forall r :: r in MiscRowsIntended(listing) ==> r in MiscRows(listing) && NotOfficialArtwork(r)
  {
    forall r | r in MiscRowsIntended(listing)
      ensures r in MiscRows(listing) && NotOfficialArtwork(r)
    {
      ConcatMember(listing, MiscDirRowsIntended, r);
      var i :| 0 <= i < |listing| && r in MiscDirRowsIntended(listing[i]);
      MiscDirRowsIntendedSound(listing[i]);
      ConcatMember(listing, MiscDirRows, r);
    }
  }

  // ---- _generate_version_sprite_csv ----

  datatype VersionRow = VersionRow(path: seq<string>, versionId: int, isShiny: bool, isFemale: bool, isBack: bool,
                                   isGrey: bool, isAnimated: bool, isTransparent: bool)

  /** A directory two levels below `pokemon/versions` whose first level
      starts with `generation`. */
  predicate IsVersionDir(d: Dir)
  {
    |d.parts| == 4 && d.parts[..2] == VersionsParts && |d.parts[2]| >= 10 && d.parts[2][..10] == "generation"
  }

  /** One row per version id for one file, in the order of the ids. */
  function VersionFileRows(path: seq<string>, flags: Flags, ids: seq<int>): (rs: seq<VersionRow>)
    ensures |rs| == |ids|
    ensures forall k :: 0 <= k < |ids| ==> rs[k].versionId == ids[k] && rs[k].path == path
  {
    seq(|ids|, k requires 0 <= k < |ids| =>
      VersionRow(path, ids[k], flags.shiny, flags.female, flags.back, flags.grey, flags.animated, flags.transparent))
  }

  /** A file's flags come from its path relative to the version directory,
      which for a file listed directly in it is its name alone. */
  function VersionFileRowsOf(d: Dir, ids: seq<int>): string -> seq<VersionRow>
  {
    (name: string) => if IsValidSprite(name) then VersionFileRows(d.parts + [name], ExtractFlags([name]), ids) else []
  }

  function VersionDirRowsOf(lookup: VersionLookup): Dir -> seq<VersionRow>
    requires ValidLookup(lookup)
  {
    (d: Dir) => if IsVersionDir(d) && DirName(d) != "icons" then
           var versions := FindVersions(DirName(d), lookup);
           if versions == [] then [] else Concat(ImageFiles(d), VersionFileRowsOf(d, VersionIds(lookup, versions)))
         else []
  }

  function VersionRows(lookup: VersionLookup, listing: seq<Dir>): seq<VersionRow>
    requires ValidLookup(lookup)
  {
    Concat(listing, VersionDirRowsOf(lookup))
  }

  /** The rows of one file, one per version id. */
  method VersionFileCsv(path: seq<string>, flags: Flags, ids: seq<int>) returns (rows: seq<VersionRow>)
    ensures rows == VersionFileRows(path, flags, ids)
  {
    rows := [];
    for k := 0 to |ids|
      invariant rows == VersionFileRows(path, flags, ids[..k])
    {
      rows := rows + [VersionRow(path, ids[k], flags.shiny, flags.female, flags.back, flags.grey, flags.animated, flags.transparent)];
    }
    assert ids[..|ids|] == ids;
  }

  /** The rows of one version directory, for the version ids its name matched. */
  method VersionDirCsv(d: Dir, ids: seq<int>) returns (rows: seq<VersionRow>)
    ensures rows == Concat(ImageFiles(d), VersionFileRowsOf(d, ids))
  {
    rows := [];
    var files := ImageFiles(d);
    for j := 0 to |files|
      invariant rows == Concat(files[..j], VersionFileRowsOf(d, ids))
    {
      ConcatStep(files, j, VersionFileRowsOf(d, ids));
      if IsValidSprite(files[j]) {
        var fileRows := VersionFileCsv(d.parts + [files[j]], ExtractFlags([files[j]]), ids);
        rows := rows + fileRows;
      }
    }
    assert files[..|files|] == files;
  }

  method GenerateVersionSpriteCsv(lookup: VersionLookup, listing: seq<Dir>) returns (rows: seq<VersionRow>, subrows: nat)
    requires ValidLookup(lookup) && |lookup| > 0
    ensures rows == VersionRows(lookup, listing) && subrows == |rows|
  {
    rows, subrows := [], 0;
    for i := 0 to |listing|
      invariant rows == Concat(listing[..i], VersionDirRowsOf(lookup)) && subrows == |rows|
    {
      var d := listing[i];
      ConcatStep(listing, i, VersionDirRowsOf(lookup));
      if IsVersionDir(d) && DirName(d) != "icons" {
        var versions := FindVersions(DirName(d), lookup);
        if versions != [] {
          var dirRows := VersionDirCsv(d, VersionIds(lookup, versions));
          rows := rows + dirRows;
          subrows := subrows + |dirRows|;
        }
      }
    }
    assert listing[..|listing|] == listing;
  }

  /** Each valid image file of a version directory yields one row per
      version found in the directory's name, in match order. */
  lemma VersionRowsPerFile(lookup: VersionLookup, d: Dir, name: string)
    requires ValidLookup(lookup)
    requires IsVersionDir(d) && DirName(d) != "icons" && IsValidSprite(name)
    ensures var versions := FindVersions(DirName(d), lookup);
      var rs := VersionFileRowsOf(d, VersionIds(lookup, versions))(name);
      |rs| == |versions| &&
      forall k :: 0 <= k < |rs| ==> rs[k].path == d.parts + [name] && rs[k].versionId == Lookup(lookup, versions[k])
  {
  }

  /** What a version row is as written: a file directly in a version
      directory other than `icons`, with no flag set. */
  predicate VersionRowAsWritten(r: VersionRow)
  {
    |r.path| == 5 && r.path[..2] == VersionsParts && r.path[3] != "icons" &&
    !r.isShiny && !r.isFemale && !r.isBack && !r.isGrey && !r.isAnimated && !r.isTransparent
  }

  lemma VersionFileRowsAsWritten(d: Dir, ids: seq<int>, name: string)
    requires IsVersionDir(d) && DirName(d) != "icons" && IsImage(name)
    ensures forall r :: r in VersionFileRowsOf(d, ids)(name) ==> VersionRowAsWritten(r)
  {
    ImageNameSetsNoFlag(name);
    forall r | r in VersionFileRowsOf(d, ids)(name)
      ensures VersionRowAsWritten(r)
    {
      assert r.path == d.parts + [name];
      assert r.path[..2] == d.parts[..2];
    }
  }

  lemma VersionDirRowsAsWritten(lookup: VersionLookup, d: Dir)
    requires ValidLookup(lookup)
    ensures forall r :: r in VersionDirRowsOf(lookup)(d) ==> VersionRowAsWritten(r)
  {
    if IsVersionDir(d) && DirName(d) != "icons" {
      var versions := FindVersions(DirName(d), lookup);
      if versions != [] {
        var ids := VersionIds(lookup, versions);
        var files := ImageFiles(d);
        forall j | 0 <= j < |files|
          ensures forall r :: r in VersionFileRowsOf(d, ids)(files[j]) ==> VersionRowAsWritten(r)
        {
          VersionFileRowsAsWritten(d, ids, files[j]);
        }
        ConcatAll(files, VersionFileRowsOf(d, ids), VersionRowAsWritten);
      }
    }
  }

  /** As written, a version directory is listed without its subdirectories
      and a file's flags are taken from its name alone: every row is a file
      directly in a version directory, and no row ever has a flag set. */
  lemma VersionFlagsAlwaysClear(lookup: VersionLookup, listing: seq<Dir>)
    requires ValidLookup(lookup)
    ensures forall r :: r in VersionRows(lookup, listing) ==> VersionRowAsWritten(r)
  {
    forall i | 0 <= i < |listing|
      ensures forall r :: r in VersionDirRowsOf(lookup)(listing[i]) ==> VersionRowAsWritten(r)
    {
      VersionDirRowsAsWritten(lookup, listing[i]);
    }
    ConcatAll(listing, VersionDirRowsOf(lookup), VersionRowAsWritten);
  }

  /** The evidently intended rows: the image files of a version directory
      and of every directory below it, each flagged by the components of its
      path below the version directory. */
  function VersionDirRowsIntendedOf(lookup: VersionLookup): Dir -> seq<VersionRow>
    requires ValidLookup(lookup)
  {
    (d: Dir) => if |d.parts| >= 4 && IsVersionDir(Dir(d.parts[..4], [])) && d.parts[3] != "icons" then
           var versions := FindVersions(d.parts[3], lookup);
           if versions == [] then [] else Concat(ImageFiles(d), VersionFileRowsIntendedOf(d, VersionIds(lookup, versions)))
         else []
  }

  function VersionFileRowsIntendedOf(d: Dir, ids: seq<int>): string -> seq<VersionRow>
    requires |d.parts| >= 4
  {
    (name: string) => if IsValidSprite(name) then VersionFileRows(d.parts + [name], ExtractFlags(d.parts[4..] + [name]), ids) else []
  }

  function VersionRowsIntended(lookup: VersionLookup, listing: seq<Dir>): seq<VersionRow>
    requires ValidLookup(lookup)
  {
    Concat(listing, VersionDirRowsIntendedOf(lookup))
  }

  /** An intended version row: each flag says whether its keyword is a
      component of the path below the version directory. */
  predicate VersionRowFlagged(r: VersionRow)
  {
    |r.path| >= 5 && r.path[..2] == VersionsParts &&
    r.isShiny == ("shiny" in r.path[4..]) && r.isBack == ("back" in r.path[4..]) &&
    r.isAnimated == ("animated" in r.path[4..]) && r.isGrey == ("grey" in r.path[4..]) &&
    r.isFemale == ("female" in r.path[4..]) && r.isTransparent == ("transparent" in r.path[4..])
  }

  lemma VersionFileRowsFlagged(d: Dir, ids: seq<int>, name: string)
    requires |d.parts| >= 4 && d.parts[..2] == VersionsParts
    ensures forall r :: r in VersionFileRowsIntendedOf(d, ids)(name) ==> VersionRowFlagged(r)
  {
    forall r | r in VersionFileRowsIntendedOf(d, ids)(name)
      ensures VersionRowFlagged(r)
    {
      var path := d.parts + [name];
      assert r.path == path;
      assert path[4..] == d.parts[4..] + [name];
      assert path[..2] == d.parts[..2];
    }
  }

  lemma VersionDirRowsFlagged(lookup: VersionLookup, d: Dir)
    requires ValidLookup(lookup)
    ensures forall r :: r in VersionDirRowsIntendedOf(lookup)(d) ==> VersionRowFlagged(r)
  {
    if |d.parts| >= 4 && IsVersionDir(Dir(d.parts[..4], [])) && d.parts[3] != "icons" {
      var versions := FindVersions(d.parts[3], lookup);
      if versions != [] {
        var ids := VersionIds(lookup, versions);
        var files := ImageFiles(d);
        assert d.parts[..2] == d.parts[..4][..2];
        forall j | 0 <= j < |files|
          ensures forall r :: r in VersionFileRowsIntendedOf(d, ids)(files[j]) ==> VersionRowFlagged(r)
        {
          VersionFileRowsFlagged(d, ids, files[j]);
        }
        ConcatAll(files, VersionFileRowsIntendedOf(d, ids), VersionRowFlagged);
      }
    }
  }

  /** With the intended listing, every row's flags are those of its path
      below the version directory. */
  lemma VersionRowsIntendedFlags(lookup: VersionLookup, listing: seq<Dir>)
    requires ValidLookup(lookup)
    ensures forall r :: r in VersionRowsIntended(lookup, listing) ==> VersionRowFlagged(r)
  {
    forall i | 0 <= i < |listing|
      ensures forall r :: r in VersionDirRowsIntendedOf(lookup)(listing[i]) ==> VersionRowFlagged(r)
    {
      VersionDirRowsFlagged(lookup, listing[i]);
    }
    ConcatAll(listing, VersionDirRowsIntendedOf(lookup), VersionRowFlagged);
  }
}
