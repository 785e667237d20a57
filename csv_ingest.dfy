/**
 * The CSV ingester: each table's CSV file is either copied as it is or
 * mapped row by row into the table's columns, looking ids up in fixed enum
 * tables; pokemon rows also take their two types from a lookup built from
 * `pokemon_types`. Each table is ingested on its own, so one table's error
 * does not stop the others, and everything is committed once at the end.
 *
 * Files are given as a map from file name (without `.csv`) to the rows
 * `csv.DictReader` yields, each a map from column name to field.
 */
module CsvIngest {
  import opened Wrappers
  import opened Text
  import opened Sorting
  import opened Seqs
  import Validation

  /** What the modelled code raises: a missing key of a row or of an enum
      table, text `int()` refuses, or a CSV file that is not there. */
  datatype PyError = KeyError(key: string) | ValueError(text: string) | FileNotFound(fileName: string)

  /** A `csv.DictReader` row: column name to field. */
  type CsvRow = map<string, string>

  /** A value of a mapped row: text, an int, a bool, or None. */
  datatype Cell = Str(s: string) | Int(i: int) | Bool(b: bool) | Null

  // ---- int() and _int_or_none ----

  /** The whitespace `int()` skips around the digits of an ASCII string, C's
      `isspace`: tab, line feed, vertical tab, form feed, carriage return and
      the space. The separators 0x1C to 0x1F, which `str.isspace()` accepts,
      are not skipped. */
  predicate IsSpace(c: char)
  {
    c == ' ' || 9 <= c as int <= 13
  }

  /** The whitespace `int()` skips, removed from both ends. */
  function Strip(s: string): (t: string)
    ensures |t| <= |s|
    ensures t != [] ==> !IsSpace(t[0]) && !IsSpace(t[|t| - 1])
    ensures (forall i :: 0 <= i < |s| ==> !IsSpace(s[i])) ==> t == s
  {
    if s != [] && IsSpace(s[0]) then Strip(s[1..])
    else if s != [] && IsSpace(s[|s| - 1]) then Strip(s[..|s| - 1])
    else s
  }

  /** `int(s)`: surrounding whitespace, an optional sign and decimal digits,
      at most `MaxStrDigits` of them; anything else raises `ValueError`. */
  function PyInt(s: string): (r: Result<int, PyError>)
    ensures r.Ok? ==> Validation.ParseDecimal(Strip(s)) == Some(r.value)
    ensures r.Err? ==> r.error == ValueError(s)
  {
    var t := Strip(s);
    var digits := if t != [] && (t[0] == '+' || t[0] == '-') then t[1..] else t;
    match Validation.ParseDecimal(t)
    case Some(v) => if |digits| > MaxStrDigits then Err(ValueError(s)) else Ok(v)
    case None => Err(ValueError(s))
  }

  /** `int()` reads back what `str()` writes, within the digit bound. */
  lemma PyIntRoundTrip(n: int)
    requires |NatToString(if n < 0 then -n else n)| <= MaxStrDigits
    ensures PyInt(IntToString(n)) == Ok(n)
  {
    var s := IntToString(n);
    Validation.ParseDecimalRoundTrip(n);
    assert Strip(s) == s by {
      if n < 0 {
        assert s == "-" + NatToString(-n);
        forall i | 0 <= i < |s| ensures !IsSpace(s[i]) {
          if i > 0 { assert s[i] == NatToString(-n)[i - 1]; }
        }
      }
    }
    if n < 0 {
      assert s[1..] == NatToString(-n);
    }
  }

  /** `int()` refuses the empty field and the `\N` null marker. */
  lemma PyIntRejectsNullMarkers()
    ensures PyInt("") == Err(ValueError(""))
    ensures PyInt("\\N") == Err(ValueError("\\N"))
  {
    assert Strip("\\N") == "\\N";
  }

  /** `int()` skips C whitespace only: an ASCII string with a leading or
      trailing file, group, record or unit separator raises. */
  lemma PyIntRejectsSeparators()
    ensures PyInt([28 as char, '5']).Err?
    ensures PyInt(['5', 31 as char]).Err?
    ensures PyInt([' ', '5', '\n']) == Ok(5)
  {
    assert Strip([28 as char, '5']) == [28 as char, '5'];
    assert Strip(['5', 31 as char]) == ['5', 31 as char];
    assert Strip([' ', '5', '\n']) == ['5'] by {
      assert [' ', '5', '\n'][1..] == ['5', '\n'];
      assert ['5', '\n'][..1] == ['5'];
    }
    assert Validation.ParseDecimal(['5']) == Some(5);
  }

  /** `_int_or_none`: no value for an empty field, the `\N` null marker or
      None; `int()` of anything else. */
  function IntOrNone(v: Option<string>): (r: Result<Option<int>, PyError>)
    ensures r == Ok(None) <==> v == None || v == Some("") || v == Some("\\N")
    ensures r.Ok? && r.value.Some? ==> v.Some? && PyInt(v.value) == Ok(r.value.value)
    ensures r.Err? ==> v.Some? && PyInt(v.value) == Err(r.error)
  {
    if v == None || v == Some("") || v == Some("\\N") then Ok(None)
    else
      var n :- PyInt(v.value);
      Ok(Some(n))
  }

  // ---- enum tables ----

  const TypeIdToEnum: map<string, string> := map[
    "1" := "Normal", "2" := "Fighting", "3" := "Flying", "4" := "Poison", "5" := "Ground", "6" := "Rock",
    "7" := "Bug", "8" := "Ghost", "9" := "Steel", "10" := "Fire", "11" := "Water", "12" := "Grass",
    "13" := "Electric", "14" := "Psychic", "15" := "Ice", "16" := "Dragon", "17" := "Dark", "18" := "Fairy",
    "19" := "Stellar", "10001" := "Unknown", "10002" := "Shadow"]

  const DamageClassIdToEnum: map<string, string> := map["1" := "Status", "2" := "Physical", "3" := "Special"]

  const GrowthRateIdToEnum: map<string, string> := map[
    "1" := "Slow", "2" := "Medium", "3" := "Fast", "4" := "MediumSlow", "5" := "SlowThenVeryFast", "6" := "FastThenVerySlow"]

  const ItemPocketIdToEnum: map<string, string> := map[
    "1" := "Misc", "2" := "Medicine", "3" := "Pokeballs", "4" := "Machines", "5" := "Berries", "6" := "Mail",
    "7" := "Battle", "8" := "Key"]

  const FlingEffectIdToEnum: map<string, string> := map[
    "1" := "BadPoison", "2" := "Burn", "3" := "BerryEffect", "4" := "HerbEffect", "5" := "Paralyze", "6" := "Poison",
    "7" := "Flinch"]

  const ColorIdToEnum: map<string, string> := map[
    "1" := "Black", "2" := "Blue", "3" := "Brown", "4" := "Gray", "5" := "Green", "6" := "Pink", "7" := "Purple",
    "8" := "Red", "9" := "White", "10" := "Yellow"]

  const ShapeIdToEnum: map<string, string> := map[
    "1" := "Ball", "2" := "Squiggle", "3" := "Fish", "4" := "Arms", "5" := "Blob", "6" := "Upright", "7" := "Legs",
    "8" := "Quadruped", "9" := "Wings", "10" := "Tentacles", "11" := "Heads", "12" := "Humanoid", "13" := "BugWings",
    "14" := "Armor"]

  const HabitatIdToEnum: map<string, string> := map[
    "1" := "Cave", "2" := "Forest", "3" := "Grassland", "4" := "Mountain", "5" := "Rare", "6" := "RoughTerrain",
    "7" := "Sea", "8" := "Urban", "9" := "WatersEdge"]

  /** Every table is keyed by decimal ids, so an empty field is never a key
      and `get(field or None)` is `get(field)`. */
  lemma EnumTablesKeyedByIds()
    ensures "" !in TypeIdToEnum && "" !in DamageClassIdToEnum && "" !in GrowthRateIdToEnum &&
            "" !in ItemPocketIdToEnum && "" !in FlingEffectIdToEnum && "" !in ColorIdToEnum &&
            "" !in ShapeIdToEnum && "" !in HabitatIdToEnum
  {
  }

  // ---- the columns of a mapped row ----

  /** The pokemon id's (primary, secondary) types. */
  type TypeLookup = map<string, (string, Option<string>)>

  /** How a mapper reads one column of its output from a row. */
  datatype Column =
    | IntCol(key: string)                                   // int(row[key])
    | TextCol(key: string)                                  // row[key]
    | OptIntCol(key: string)                                // _int_or_none(row[key])
    | FlagCol(key: string)                                  // row[key] == '1'
    | EnumCol(table: map<string, string>, key: string)      // TABLE[row[key]]
    | OptEnumCol(table: map<string, string>, key: string)   // TABLE.get(row[key] or None)
    | PrimaryTypeCol(lookup: TypeLookup, key: string)       // type_lookup.get(row[key], (None, None))[0]
    | SecondaryTypeCol(lookup: TypeLookup, key: string)     // type_lookup.get(row[key], (None, None))[1]

  /** Whether a present field is one the column accepts. */
  predicate Accepts(c: Column, v: string)
  {
    match c
    case IntCol(_) => PyInt(v).Ok?
    case OptIntCol(_) => IntOrNone(Some(v)).Ok?
    case EnumCol(table, _) => v in table
    case _ => true
  }

  function OptStr(v: Option<string>): Cell
  {
    if v.Some? then Str(v.value) else Null
  }

  function ReadColumn(row: CsvRow, c: Column): (r: Result<Cell, PyError>)
    ensures r.Ok? <==> c.key in row && Accepts(c, row[c.key])
    ensures r.Err? && c.key !in row ==> r.error == KeyError(c.key)
    ensures r.Ok? && c.FlagCol? ==> r.value == Bool(row[c.key] == "1")
    ensures r.Ok? && c.EnumCol? ==> r.value.Str? && r.value.s in c.table.Values
    ensures r.Ok? && c.OptEnumCol? ==> (r.value == Null <==> row[c.key] == "" || row[c.key] !in c.table)
    ensures r.Ok? && c.OptIntCol? ==> (r.value == Null <==> row[c.key] == "" || row[c.key] == "\\N")
    ensures r.Ok? && (c.PrimaryTypeCol? || c.SecondaryTypeCol?) && row[c.key] !in c.lookup ==> r.value == Null
  {
    if c.key !in row then Err(KeyError(c.key))
    else
      var v := row[c.key];
      match c
      case IntCol(_) => var n :- PyInt(v); Ok(Int(n))
      case TextCol(_) => Ok(Str(v))
      case OptIntCol(_) => var n :- IntOrNone(Some(v)); Ok(if n.Some? then Int(n.value) else Null)
      case FlagCol(_) => Ok(Bool(v == "1"))
      case EnumCol(table, _) => if v in table then Ok(Str(table[v])) else Err(KeyError(v))
      case OptEnumCol(table, _) =>
        var k := if v == "" then None else Some(v);
        Ok(if k.Some? && k.value in table then Str(table[k.value]) else Null)
      case PrimaryTypeCol(lookup, _) => Ok(if v in lookup then Str(lookup[v].0) else Null)
      case SecondaryTypeCol(lookup, _) => Ok(if v in lookup then OptStr(lookup[v].1) else Null)
  }

  /** A mapper: its tuple's columns, evaluated left to right. */
  function MapColumns(row: CsvRow, cols: seq<Column>): (r: Result<seq<Cell>, PyError>)
    ensures r.Ok? ==> |r.value| == |cols|
  {
    if cols == [] then Ok([])
    else
      var c :- ReadColumn(row, cols[0]);
      var rest :- MapColumns(row, cols[1..]);
      Ok([c] + rest)
  }

  /** A row maps iff every column reads; the mapped row holds the columns'
      values in order, and an error is that of the first column that fails. */
  lemma {:induction false} MapColumnsReadsEach(row: CsvRow, cols: seq<Column>)
    ensures MapColumns(row, cols).Ok? <==> forall i :: 0 <= i < |cols| ==> ReadColumn(row, cols[i]).Ok?
    ensures MapColumns(row, cols).Ok? ==>
      |MapColumns(row, cols).value| == |cols| &&
      forall i :: 0 <= i < |cols| ==> MapColumns(row, cols).value[i] == ReadColumn(row, cols[i]).value
    ensures MapColumns(row, cols).Err? ==>
      exists i :: 0 <= i < |cols| && ReadColumn(row, cols[i]) == Err(MapColumns(row, cols).error) &&
        forall j :: 0 <= j < i ==> ReadColumn(row, cols[j]).Ok?
  {
    if cols != [] {
      MapColumnsReadsEach(row, cols[1..]);
      var r := MapColumns(row, cols);
      if ReadColumn(row, cols[0]).Ok? && MapColumns(row, cols[1..]).Err? {
        var i :| 0 <= i < |cols[1..]| && ReadColumn(row, cols[1..][i]) == Err(MapColumns(row, cols[1..]).error) &&
          forall j :: 0 <= j < i ==> ReadColumn(row, cols[1..][j]).Ok?;
        assert ReadColumn(row, cols[i + 1]) == Err(r.error);
        forall j | 0 <= j < i + 1 ensures ReadColumn(row, cols[j]).Ok? {
          if j > 0 { assert cols[j] == cols[1..][j - 1]; }
        }
      }
      if r.Ok? {
        forall i | 0 <= i < |cols| ensures ReadColumn(row, cols[i]).Ok? && r.value[i] == ReadColumn(row, cols[i]).value {
          if i > 0 { assert cols[i] == cols[1..][i - 1]; }
        }
      }
      if forall i :: 0 <= i < |cols| ==> ReadColumn(row, cols[i]).Ok? {
        assert forall i :: 0 <= i < |cols[1..]| ==> ReadColumn(row, cols[1..][i]).Ok? by {
          forall i | 0 <= i < |cols[1..]| ensures ReadColumn(row, cols[1..][i]).Ok? {
            assert cols[1..][i] == cols[i + 1];
          }
        }
      }
    }
  }

  // ---- the mappers of the _ingest_* functions ----

  const PokemonHeaders: seq<string> := ["id", "name", "primaryType", "secondaryType", "species_id", "height_dm",
    "weight_hg", "base_experience", "natural_order", "is_default"]

  function PokemonColumns(lookup: TypeLookup): (cols: seq<Column>)
    ensures |cols| == |PokemonHeaders|
  {
    [IntCol("id"), TextCol("identifier"), PrimaryTypeCol(lookup, "id"), SecondaryTypeCol(lookup, "id"),
     IntCol("species_id"), IntCol("height"), IntCol("weight"), IntCol("base_experience"), OptIntCol("order"),
     FlagCol("is_default")]
  }

  const TypeMetadataHeaders: seq<string> := ["ptype", "generation_id", "damage_class"]

  const TypeMetadataColumns: seq<Column> :=
    [EnumCol(TypeIdToEnum, "id"), IntCol("generation_id"), OptEnumCol(DamageClassIdToEnum, "damage_class_id")]

  const GrowthRateHeaders: seq<string> := ["rate", "formula"]

  const GrowthRateColumns: seq<Column> := [EnumCol(GrowthRateIdToEnum, "id"), TextCol("formula")]

  const ItemCategoryHeaders: seq<string> := ["id", "pocket", "name"]

  const ItemCategoryColumns: seq<Column> :=
    [IntCol("id"), EnumCol(ItemPocketIdToEnum, "pocket_id"), TextCol("identifier")]

  const ItemHeaders: seq<string> := ["id", "name", "category_id", "cost", "fling_power", "fling_effect"]

  const ItemColumns: seq<Column> :=
    [IntCol("id"), TextCol("identifier"), IntCol("category_id"), IntCol("cost"), OptIntCol("fling_power"),
     OptEnumCol(FlingEffectIdToEnum, "fling_effect_id")]

  const SpeciesHeaders: seq<string> := ["id", "name", "generation_id", "evolves_from", "evolution_chain_id", "color",
    "shape", "habitat", "gender_rate", "capture_rate", "base_happiness", "is_baby", "hatch_counter",
    "has_gender_difference", "growth_rate", "forms_switchable", "is_legendary", "is_mythical", "natural_order",
    "conquest_order"]

  const SpeciesColumns: seq<Column> :=
    [IntCol("id"), TextCol("identifier"), IntCol("generation_id"), OptIntCol("evolves_from_species_id"),
     IntCol("evolution_chain_id"), EnumCol(ColorIdToEnum, "color_id"), EnumCol(ShapeIdToEnum, "shape_id"),
     OptEnumCol(HabitatIdToEnum, "habitat_id"), IntCol("gender_rate"), IntCol("capture_rate"),
     IntCol("base_happiness"), FlagCol("is_baby"), IntCol("hatch_counter"), FlagCol("has_gender_differences"),
     EnumCol(GrowthRateIdToEnum, "growth_rate_id"), FlagCol("forms_switchable"), FlagCol("is_legendary"),
     FlagCol("is_mythical"), IntCol("order"), OptIntCol("conquest_order")]

  /** Every mapper yields exactly as many values as its header has columns. */
  lemma MappersMatchHeaders(lookup: TypeLookup)
    ensures |PokemonColumns(lookup)| == |PokemonHeaders|
    ensures |TypeMetadataColumns| == |TypeMetadataHeaders| && |GrowthRateColumns| == |GrowthRateHeaders|
    ensures |ItemCategoryColumns| == |ItemCategoryHeaders| && |ItemColumns| == |ItemHeaders|
    ensures |SpeciesColumns| == |SpeciesHeaders|
  {
  }

  /** A pokemon missing from the type lookup gets no types; one in it gets
      its primary type and its secondary type or none. */
  lemma PokemonTypes(lookup: TypeLookup, row: CsvRow)
    requires MapColumns(row, PokemonColumns(lookup)).Ok?
    ensures var m := MapColumns(row, PokemonColumns(lookup)).value;
      "id" in row && "is_default" in row &&
      (row["id"] !in lookup ==> m[2] == Null && m[3] == Null) &&
      (row["id"] in lookup ==> m[2] == Str(lookup[row["id"]].0) && m[3] == OptStr(lookup[row["id"]].1)) &&
      m[9] == Bool(row["is_default"] == "1")
  {
    MapColumnsReadsEach(row, PokemonColumns(lookup));
    var cols := PokemonColumns(lookup);
    assert cols[2] == PrimaryTypeCol(lookup, "id") && cols[3] == SecondaryTypeCol(lookup, "id");
    assert cols[9] == FlagCol("is_default");
    assert ReadColumn(row, cols[2]).Ok?;
  }

  // ---- _map_csv ----

  function HeaderCells(headers: seq<string>): (cells: seq<Cell>)
    ensures |cells| == |headers|
    ensures forall i :: 0 <= i < |headers| ==> cells[i] == Str(headers[i])
  {
    seq(|headers|, i requires 0 <= i < |headers| => Str(headers[i]))
  }

  /** The mapped rows, in order; the first row that fails stops it. */
  function MapAll(rows: seq<CsvRow>, cols: seq<Column>): Result<seq<seq<Cell>>, PyError>
  {
    if rows == [] then Ok([])
    else
      var init :- MapAll(rows[..|rows| - 1], cols);
      var last :- MapColumns(rows[|rows| - 1], cols);
      Ok(init + [last])
  }

  /** `_map_csv`'s output: the header row, then one mapped row per row of
      the file. */
  function MappedCsv(fileName: string, files: map<string, seq<CsvRow>>, headers: seq<string>, cols: seq<Column>)
    : Result<seq<seq<Cell>>, PyError>
  {
    if fileName !in files then Err(FileNotFound(fileName))
    else
      var body :- MapAll(files[fileName], cols);
      Ok([HeaderCells(headers)] + body)
  }

  /** Once a prefix fails, the whole file fails with the same error. */
  lemma {:induction false} MapAllFailsFromPrefix(rows: seq<CsvRow>, k: nat, cols: seq<Column>)
    requires k <= |rows| && MapAll(rows[..k], cols).Err?
    ensures MapAll(rows, cols) == MapAll(rows[..k], cols)
    decreases |rows| - k
  {
    if k < |rows| {
      assert rows[..k + 1][..k] == rows[..k];
      MapAllFailsFromPrefix(rows, k + 1, cols);
    } else {
      assert rows[..k] == rows;
    }
  }

  method MapCsv(fileName: string, files: map<string, seq<CsvRow>>, headers: seq<string>, cols: seq<Column>)
    returns (r: Result<seq<seq<Cell>>, PyError>)
    ensures r == MappedCsv(fileName, files, headers, cols)
  {
    var buffer := [HeaderCells(headers)];
    if fileName !in files {
      return Err(FileNotFound(fileName));
    }
    var rows := files[fileName];
    assert rows[..0] == [] && buffer[1..] == [];
    for i := 0 to |rows|
      invariant |buffer| >= 1 && buffer[0] == HeaderCells(headers)
      invariant MapAll(rows[..i], cols) == Ok(buffer[1..])
    {
      assert rows[..i + 1][..i] == rows[..i];
      if MapColumns(rows[i], cols).Err? {
        MapAllFailsFromPrefix(rows, i + 1, cols);
      }
      var mapped :- MapColumns(rows[i], cols);
      assert (buffer + [mapped])[1..] == buffer[1..] + [mapped];
      buffer := buffer + [mapped];
    }
    assert rows[..|rows|] == rows;
    assert buffer == [HeaderCells(headers)] + buffer[1..];
    return Ok(buffer);
  }

  /** The output is the header, then exactly one mapped row per input row
      in input order; it fails iff some row fails, with the error of the
      first such row. */
  lemma {:induction false} MapAllRowByRow(rows: seq<CsvRow>, cols: seq<Column>)
    ensures MapAll(rows, cols).Ok? <==> forall i :: 0 <= i < |rows| ==> MapColumns(rows[i], cols).Ok?
    ensures MapAll(rows, cols).Ok? ==>
      |MapAll(rows, cols).value| == |rows| &&
      forall i :: 0 <= i < |rows| ==> MapAll(rows, cols).value[i] == MapColumns(rows[i], cols).value
    ensures MapAll(rows, cols).Err? ==>
      exists i :: 0 <= i < |rows| && MapColumns(rows[i], cols) == Err(MapAll(rows, cols).error) &&
        forall j :: 0 <= j < i ==> MapColumns(rows[j], cols).Ok?
  {
    if rows != [] {
      var init := rows[..|rows| - 1];
      var n := |rows| - 1;
      MapAllRowByRow(init, cols);
      assert forall i :: 0 <= i < n ==> init[i] == rows[i];
      var front := MapAll(init, cols);
      var last := MapColumns(rows[n], cols);
      if front.Err? {
        assert MapAll(rows, cols) == Err(front.error);
        var i :| 0 <= i < n && MapColumns(init[i], cols) == Err(front.error) &&
          forall j :: 0 <= j < i ==> MapColumns(init[j], cols).Ok?;
        assert MapColumns(rows[i], cols) == Err(front.error);
      } else if last.Err? {
        assert MapAll(rows, cols) == Err(last.error);
        assert forall j :: 0 <= j < n ==> MapColumns(rows[j], cols).Ok?;
      } else {
        var v := MapAll(rows, cols).value;
        assert v == front.value + [last.value];
        forall i | 0 <= i < |rows|
          ensures v[i] == MapColumns(rows[i], cols).value
        {
          if i < n {
            assert v[i] == front.value[i];
          }
        }
      }
    }
  }

  // ---- _load_static_type_lookup ----

  /** One `pokemon_types` row: the pokemon, the slot and the type. */
  datatype TypeEntry = TypeEntry(pid: string, slot: int, typeName: string)

  function ParseTypeRow(row: CsvRow): Result<TypeEntry, PyError>
  {
    var pid :- if "pokemon_id" in row then Ok(row["pokemon_id"]) else Err(KeyError("pokemon_id"));
    var slotText :- if "slot" in row then Ok(row["slot"]) else Err(KeyError("slot"));
    var slot :- PyInt(slotText);
    var typeId :- if "type_id" in row then Ok(row["type_id"]) else Err(KeyError("type_id"));
    var typeName :- if typeId in TypeIdToEnum then Ok(TypeIdToEnum[typeId]) else Err(KeyError(typeId));
    Ok(TypeEntry(pid, slot, typeName))
  }

  /** The rows read in file order; the first row that fails stops it. */
  function TypeEntries(rows: seq<CsvRow>): Result<seq<TypeEntry>, PyError>
  {
    if rows == [] then Ok([])
    else
      var init :- TypeEntries(rows[..|rows| - 1]);
      var e :- ParseTypeRow(rows[|rows| - 1]);
      Ok(init + [e])
  }

  lemma {:induction false} TypeEntriesFailFromPrefix(rows: seq<CsvRow>, k: nat)
    requires k <= |rows| && TypeEntries(rows[..k]).Err?
    ensures TypeEntries(rows) == TypeEntries(rows[..k])
    decreases |rows| - k
  {
    if k < |rows| {
      assert rows[..k + 1][..k] == rows[..k];
      TypeEntriesFailFromPrefix(rows, k + 1);
    } else {
      assert rows[..k] == rows;
    }
  }

  /** A pokemon's (slot, type) pairs, in file order. */
  function Group(es: seq<TypeEntry>, pid: string): (g: seq<(int, string)>)
    ensures |g| <= |es|
  {
    if es == [] then []
    else
      var last := es[|es| - 1];
      Group(es[..|es| - 1], pid) + (if last.pid == pid then [(last.slot, last.typeName)] else [])
  }

  /** The pokemon ids in order of first appearance, as the dict keeps them. */
  function Pids(es: seq<TypeEntry>): seq<string>
  {
    if es == [] then []
    else
      var ps := Pids(es[..|es| - 1]);
      if es[|es| - 1].pid in ps then ps else ps + [es[|es| - 1].pid]
  }

  /** The ids listed are exactly those with entries, each once. */
  lemma {:induction false} PidsAreGroups(es: seq<TypeEntry>)
    ensures forall p :: p in Pids(es) <==> Group(es, p) != []
    ensures forall i, j :: 0 <= i < j < |Pids(es)| ==> Pids(es)[i] != Pids(es)[j]
  {
    if es != [] {
      PidsAreGroups(es[..|es| - 1]);
    }
  }

  function SlotOf(t: (int, string)): int { t.0 }

  /** Primary: the first type after sorting by slot; secondary: the next one
      if there is one. */
  function TypesOf(g: seq<(int, string)>): (string, Option<string>)
    requires g != []
  {
    var sorted := SortBy(g, SlotOf);
    (sorted[0].1, if |sorted| > 1 then Some(sorted[1].1) else None)
  }

  function TypeLookupOf(rows: seq<CsvRow>): Result<TypeLookup, PyError>
  {
    var es :- TypeEntries(rows);
    Ok(LookupFrom(es))
  }

  /** Each listed pokemon's types. */
  function LookupFrom(es: seq<TypeEntry>): TypeLookup
  {
    PidsAreGroups(es);
    map p | p in Pids(es) :: TypesOf(Group(es, p))
  }

  lemma LookupFromMatches(result: TypeLookup, es: seq<TypeEntry>)
    requires forall p :: p in Pids(es) ==> Group(es, p) != []
    requires forall p :: p in result <==> p in Pids(es)
    requires forall p :: p in result ==> result[p] == TypesOf(Group(es, p))
    ensures result == LookupFrom(es)
  {
  }

  /** The first loop's state: each listed pokemon's pairs, keyed as listed. */
  ghost predicate Grouped(typeMap: map<string, seq<(int, string)>>, pids: seq<string>, es: seq<TypeEntry>)
  {
    pids == Pids(es) &&
    (forall p :: p in typeMap <==> p in pids) &&
    (forall p :: p in typeMap ==> typeMap[p] == Group(es, p))
  }

  /** Appending one entry to the state keeps it grouped. */
  lemma GroupedStep(typeMap: map<string, seq<(int, string)>>, pids: seq<string>, es: seq<TypeEntry>, e: TypeEntry)
    requires Grouped(typeMap, pids, es)
    ensures e.pid in typeMap ==> Grouped(typeMap[e.pid := typeMap[e.pid] + [(e.slot, e.typeName)]], pids, es + [e])
    ensures e.pid !in typeMap ==> Grouped(typeMap[e.pid := [(e.slot, e.typeName)]], pids + [e.pid], es + [e])
  {
    var es' := es + [e];
    PidsAreGroups(es);
    assert es'[..|es'| - 1] == es;
    assert Pids(es') == if e.pid in Pids(es) then Pids(es) else Pids(es) + [e.pid];
    assert forall p :: Group(es', p) == Group(es, p) + (if e.pid == p then [(e.slot, e.typeName)] else []);
  }

  /** The first loop of `_load_static_type_lookup`: `setdefault(pid, []).append`. */
  method GroupTypeRows(rows: seq<CsvRow>) returns (r: Result<(map<string, seq<(int, string)>>, seq<string>), PyError>)
    ensures r.Ok? <==> TypeEntries(rows).Ok?
    ensures r.Err? ==> TypeEntries(rows) == Err(r.error)
    ensures r.Ok? ==> Grouped(r.value.0, r.value.1, TypeEntries(rows).value)
  {
    var typeMap: map<string, seq<(int, string)>> := map[];
    var pids: seq<string> := [];
    ghost var es: seq<TypeEntry> := [];
    assert rows[..0] == [];
    for i := 0 to |rows|
      invariant TypeEntries(rows[..i]) == Ok(es)
      invariant Grouped(typeMap, pids, es)
    {
      assert rows[..i + 1][..i] == rows[..i];
      if ParseTypeRow(rows[i]).Err? {
        TypeEntriesFailFromPrefix(rows, i + 1);
      }
      var e :- ParseTypeRow(rows[i]);
      GroupedStep(typeMap, pids, es, e);
      es := es + [e];
      if e.pid in typeMap {
        typeMap := typeMap[e.pid := typeMap[e.pid] + [(e.slot, e.typeName)]];
      } else {
        typeMap := typeMap[e.pid := [(e.slot, e.typeName)]];
        pids := pids + [e.pid];
      }
    }
    assert rows[..|rows|] == rows;
    return Ok((typeMap, pids));
  }

  /** The second loop of `_load_static_type_lookup`: one entry per pokemon. */
  method PickTypes(typeMap: map<string, seq<(int, string)>>, pids: seq<string>, ghost es: seq<TypeEntry>)
    returns (result: TypeLookup)
    requires Grouped(typeMap, pids, es)
    ensures result == LookupFrom(es)
  {
    PidsAreGroups(es);
    result := map[];
    for k := 0 to |pids|
      invariant PickedUpTo(result, pids, k, es)
    {
      assert pids[k] in pids;
      assert typeMap[pids[k]] == Group(es, pids[k]) != [];
      var sortedTypes := SortBy(typeMap[pids[k]], SlotOf);
      var primary := sortedTypes[0].1;
      var secondary := if |sortedTypes| > 1 then Some(sortedTypes[1].1) else None;
      assert (primary, secondary) == TypesOf(Group(es, pids[k]));
      PickStep(result, pids, k, es);
      result := result[pids[k] := (primary, secondary)];
    }
    assert pids[..|pids|] == pids;
    LookupFromMatches(result, es);
  }

  /** The second loop's state after k pokemon: their types, keyed by id. */
  ghost predicate PickedUpTo(result: TypeLookup, pids: seq<string>, k: nat, es: seq<TypeEntry>)
    requires k <= |pids|
  {
    (forall p :: p in result <==> p in pids[..k]) &&
    (forall p :: p in result ==> p in pids && Group(es, p) != [] && result[p] == TypesOf(Group(es, p)))
  }

  lemma PickStep(result: TypeLookup, pids: seq<string>, k: nat, es: seq<TypeEntry>)
    requires k < |pids| && Group(es, pids[k]) != []
    requires PickedUpTo(result, pids, k, es)
    ensures PickedUpTo(result[pids[k] := TypesOf(Group(es, pids[k]))], pids, k + 1, es)
  {
    var r := result[pids[k] := TypesOf(Group(es, pids[k]))];
    assert pids[..k + 1] == pids[..k] + [pids[k]];
    forall p
      ensures p in r <==> p in pids[..k + 1]
    {
    }
    forall p | p in r
      ensures p in pids && Group(es, p) != [] && r[p] == TypesOf(Group(es, p))
    {
      if p != pids[k] {
        assert r[p] == result[p];
      }
    }
  }

  method LoadStaticTypeLookup(rows: seq<CsvRow>) returns (r: Result<TypeLookup, PyError>)
    ensures r == TypeLookupOf(rows)
  {
    var grouped :- GroupTypeRows(rows);
    var result := PickTypes(grouped.0, grouped.1, TypeEntries(rows).value);
    return Ok(result);
  }

  /** Every row reads: the entries are the rows' entries, one per row. */
  lemma {:induction false} TypeEntriesRowByRow(rows: seq<CsvRow>)
    ensures TypeEntries(rows).Ok? <==> forall i :: 0 <= i < |rows| ==> ParseTypeRow(rows[i]).Ok?
    ensures TypeEntries(rows).Ok? ==>
      |TypeEntries(rows).value| == |rows| &&
      forall i :: 0 <= i < |rows| ==> TypeEntries(rows).value[i] == ParseTypeRow(rows[i]).value
  {
    if rows != [] {
      var init := rows[..|rows| - 1];
      var n := |rows| - 1;
      TypeEntriesRowByRow(init);
      assert forall i :: 0 <= i < n ==> init[i] == rows[i];
      var front := TypeEntries(init);
      var last := ParseTypeRow(rows[n]);
      if front.Err? {
        assert TypeEntries(rows).Err?;
      } else if last.Err? {
        assert TypeEntries(rows).Err?;
      } else {
        var v := TypeEntries(rows).value;
        assert v == front.value + [last.value];
        forall i | 0 <= i < |rows|
          ensures v[i] == ParseTypeRow(rows[i]).value
        {
          if i < n {
            assert v[i] == front.value[i];
          }
        }
      }
    }
  }

  /** The ids of the entries are exactly the ids listed. */
  lemma {:induction false} PidsOfEntries(es: seq<TypeEntry>)
    ensures forall p :: p in Pids(es) <==> exists i :: 0 <= i < |es| && es[i].pid == p
  {
    if es != [] {
      var init := es[..|es| - 1];
      PidsOfEntries(init);
      assert forall i :: 0 <= i < |init| ==> init[i] == es[i];
    }
  }

  /** The lookup fails iff some row fails to read; otherwise it holds an
      entry for exactly the pokemon ids of the rows. */
  lemma TypeLookupDomain(rows: seq<CsvRow>)
    ensures TypeLookupOf(rows).Ok? <==> forall i :: 0 <= i < |rows| ==> ParseTypeRow(rows[i]).Ok?
    ensures TypeLookupOf(rows).Ok? ==> forall p :: p in TypeLookupOf(rows).value <==>
      exists i :: 0 <= i < |rows| && "pokemon_id" in rows[i] && rows[i]["pokemon_id"] == p
  {
    TypeEntriesRowByRow(rows);
    if TypeEntries(rows).Ok? {
      var es := TypeEntries(rows).value;
      PidsOfEntries(es);
      forall i | 0 <= i < |rows| ensures "pokemon_id" in rows[i] && es[i].pid == rows[i]["pokemon_id"] {
        assert ParseTypeRow(rows[i]).Ok?;
      }
    }
  }

  /** The lowest slot of a non-empty group. */
  function MinSlot(g: seq<(int, string)>): (m: int)
    requires g != []
    ensures forall i :: 0 <= i < |g| ==> m <= g[i].0
    ensures exists i :: 0 <= i < |g| && g[i].0 == m
  {
    if |g| == 1 then g[0].0
    else
      var m := MinSlot(g[..|g| - 1]);
      assert forall i :: 0 <= i < |g| - 1 ==> g[..|g| - 1][i] == g[i];
      if g[|g| - 1].0 < m then g[|g| - 1].0 else m
  }

  /** The primary type is that of the first entry, in file order, with the
      lowest slot; there is a secondary type iff the pokemon has more than
      one entry, and it is the type of one of them. */
  lemma PrimaryIsFirstLowestSlot(g: seq<(int, string)>)
    requires g != []
    ensures WithKey(g, SlotOf, MinSlot(g)) != []
    ensures TypesOf(g).0 == WithKey(g, SlotOf, MinSlot(g))[0].1
    ensures TypesOf(g).1.Some? <==> |g| > 1
    ensures TypesOf(g).1.Some? ==> exists i :: 0 <= i < |g| && g[i].1 == TypesOf(g).1.value
  {
    var sorted := SortBy(g, SlotOf);
    var m := MinSlot(g);
    SortBySorted(g, SlotOf);
    assert sorted[0] in multiset(g);
    var j :| 0 <= j < |g| && g[j].0 == m;
    assert g[j] in multiset(sorted);
    assert SlotOf(sorted[0]) == m;
    WithKeyHead(sorted, SlotOf);
    SortByStable(g, SlotOf, m);
    if |sorted| > 1 {
      assert sorted[1] in multiset(g);
    }
  }

  // ---- _run_ingest and ingest_csv_files ----

  /** What a table's block hands to `ingest_csv`: the file as it is, or the
      mapped rows with their header. */
  datatype Payload = Copied(rows: seq<CsvRow>) | Mapped(cells: seq<seq<Cell>>)

  /** Which `_ingest_*` function a table runs. */
  datatype Block = SimpleCsv | PokemonBlock | TypeMetadataBlock | GrowthRateBlock | ItemCategoryBlock | ItemBlock | SpeciesBlock

  /** The outcome of a table's block: the payload it loads, or what it raises
      before loading anything. */
  function BlockOutcome(block: Block, fileName: string, files: map<string, seq<CsvRow>>): Result<Payload, PyError>
  {
    match block
    case SimpleCsv => if fileName in files then Ok(Copied(files[fileName])) else Err(FileNotFound(fileName))
    case PokemonBlock =>
      var typeRows :- if "pokemon_types" in files then Ok(files["pokemon_types"]) else Err(FileNotFound("pokemon_types"));
      var lookup :- TypeLookupOf(typeRows);
      var cells :- MappedCsv(fileName, files, PokemonHeaders, PokemonColumns(lookup));
      Ok(Mapped(cells))
    case TypeMetadataBlock => var cells :- MappedCsv(fileName, files, TypeMetadataHeaders, TypeMetadataColumns); Ok(Mapped(cells))
    case GrowthRateBlock => var cells :- MappedCsv(fileName, files, GrowthRateHeaders, GrowthRateColumns); Ok(Mapped(cells))
    case ItemCategoryBlock => var cells :- MappedCsv(fileName, files, ItemCategoryHeaders, ItemCategoryColumns); Ok(Mapped(cells))
    case ItemBlock => var cells :- MappedCsv(fileName, files, ItemHeaders, ItemColumns); Ok(Mapped(cells))
    case SpeciesBlock => var cells :- MappedCsv(fileName, files, SpeciesHeaders, SpeciesColumns); Ok(Mapped(cells))
  }

  method RunBlock(block: Block, fileName: string, files: map<string, seq<CsvRow>>) returns (r: Result<Payload, PyError>)
    ensures r == BlockOutcome(block, fileName, files)
  {
    var cells: seq<seq<Cell>>;
    match block {
      case SimpleCsv =>
        if fileName !in files {
          return Err(FileNotFound(fileName));
        }
        return Ok(Copied(files[fileName]));
      case PokemonBlock =>
        if "pokemon_types" !in files {
          return Err(FileNotFound("pokemon_types"));
        }
        var lookup :- LoadStaticTypeLookup(files["pokemon_types"]);
        cells :- MapCsv(fileName, files, PokemonHeaders, PokemonColumns(lookup));
      case TypeMetadataBlock => cells :- MapCsv(fileName, files, TypeMetadataHeaders, TypeMetadataColumns);
      case GrowthRateBlock => cells :- MapCsv(fileName, files, GrowthRateHeaders, GrowthRateColumns);
      case ItemCategoryBlock => cells :- MapCsv(fileName, files, ItemCategoryHeaders, ItemCategoryColumns);
      case ItemBlock => cells :- MapCsv(fileName, files, ItemHeaders, ItemColumns);
      case SpeciesBlock => cells :- MapCsv(fileName, files, SpeciesHeaders, SpeciesColumns);
    }
    return Ok(Mapped(cells));
  }

  /** The database connection: what `ingest_csv` loaded into which table, in
      order, and how often the transaction was committed. */
  class Connection {
    var loaded: seq<(string, Payload)>
    var commits: nat

    constructor ()
      ensures loaded == [] && commits == 0
    {
      loaded := [];
      commits := 0;
    }
  }

  /** A table's loads: its payload when its block succeeds, nothing when it raises. */
  function Loads(tableName: string, outcome: Result<Payload, PyError>): seq<(string, Payload)>
  {
    if outcome.Ok? then [(tableName, outcome.value)] else []
  }

  /** `_run_ingest`: runs the block and swallows what it raises. */
  method RunIngest(conn: Connection, tableName: string, fileName: string, block: Block, files: map<string, seq<CsvRow>>)
    modifies conn
    ensures conn.loaded == old(conn.loaded) + Loads(tableName, BlockOutcome(block, fileName, files))
    ensures conn.commits == old(conn.commits)
  {
    var outcome := RunBlock(block, fileName, files);
    if outcome.Ok? {
      conn.loaded := conn.loaded + [(tableName, outcome.value)];
    }
  }

  datatype Step = Step(tableName: string, fileName: string, block: Block)

  /** `_SIMPLE_CSVS`, in its insertion order. */
  const SimpleCsvs: seq<Step> := [
    Step("evolution_chain", "evolution_chains", SimpleCsv), Step("generation", "generations", SimpleCsv),
    Step("region", "regions", SimpleCsv), Step("version", "versions", SimpleCsv),
    Step("version_group", "version_groups", SimpleCsv)]

  /** The tables `ingest_csv_files` ingests, in its order. */
  const IngestPlan: seq<Step> := SimpleCsvs + [
    Step("pokemon", "pokemon", PokemonBlock), Step("type_metadata", "types", TypeMetadataBlock),
    Step("growth_metadata", "growth_rates", GrowthRateBlock), Step("item_category", "item_categories", ItemCategoryBlock),
    Step("item", "items", ItemBlock), Step("species", "pokemon_species", SpeciesBlock)]

  /** The outcome of each step's block on the given files. */
  function StepOutcome(files: map<string, seq<CsvRow>>): Step -> Result<Payload, PyError>
  {
    (st: Step) => BlockOutcome(st.block, st.fileName, files)
  }

  /** The loads of each step, given its outcome. */
  function LoadsBy(outcome: Step -> Result<Payload, PyError>): Step -> seq<(string, Payload)>
  {
    (st: Step) => Loads(st.tableName, outcome(st))
  }

  /** `ingest_csv_files`: every table of the plan in turn, each through
      `_run_ingest`, then one commit. */
  method IngestCsvFiles(conn: Connection, files: map<string, seq<CsvRow>>)
    modifies conn
    ensures conn.loaded == old(conn.loaded) + Concat(IngestPlan, LoadsBy(StepOutcome(files)))
    ensures conn.commits == old(conn.commits) + 1
  {
    var plan := IngestPlan;
    for i := 0 to |plan|
      invariant conn.loaded == old(conn.loaded) + Concat(plan[..i], LoadsBy(StepOutcome(files)))
      invariant conn.commits == old(conn.commits)
    {
      ConcatStep(plan, i, LoadsBy(StepOutcome(files)));
      RunIngest(conn, plan[i].tableName, plan[i].fileName, plan[i].block, files);
    }
    assert plan[..|plan|] == plan;
    conn.commits := conn.commits + 1;
  }

  predicate DistinctTables(plan: seq<Step>)
  {
    forall i, j :: 0 <= i < j < |plan| ==> plan[i].tableName != plan[j].tableName
  }

  /** In a plan whose tables are distinct, a table gets loaded iff its own
      block succeeds, with what that block produced, whatever the others do. */
  lemma LoadsIsolated(plan: seq<Step>, outcome: Step -> Result<Payload, PyError>, k: nat, payload: Payload)
    requires k < |plan| && DistinctTables(plan)
    ensures (plan[k].tableName, payload) in Concat(plan, LoadsBy(outcome)) <==> outcome(plan[k]) == Ok(payload)
  {
    var entry := (plan[k].tableName, payload);
    var f := LoadsBy(outcome);
    ConcatMember(plan, f, entry);
    if entry in Concat(plan, f) {
      var i :| 0 <= i < |plan| && entry in f(plan[i]);
      assert f(plan[i]) == Loads(plan[i].tableName, outcome(plan[i]));
      assert plan[i].tableName == plan[k].tableName;
      assert i == k;
    }
    if outcome(plan[k]) == Ok(payload) {
      assert f(plan[k]) == [entry];
    }
  }

  /** Every table of `ingest_csv_files` is attempted whatever the others do. */
  lemma IngestIsolatesTables(files: map<string, seq<CsvRow>>, k: nat, payload: Payload)
    requires k < |IngestPlan|
    ensures (IngestPlan[k].tableName, payload) in Concat(IngestPlan, LoadsBy(StepOutcome(files))) <==>
      BlockOutcome(IngestPlan[k].block, IngestPlan[k].fileName, files) == Ok(payload)
  {
    IngestPlanDistinct();
    LoadsIsolated(IngestPlan, StepOutcome(files), k, payload);
  }

  lemma IngestPlanDistinct()
    ensures DistinctTables(IngestPlan)
  {
  }
}
