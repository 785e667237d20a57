/**
 * The sprite tree's file names: which files are images, a file's stem,
 * the pokemon id and variant a stem names, and the flags a path's
 * components set.
 */
module SpritePaths {
  import opened Wrappers
  import opened Text

  /** A directory of the sprite tree: its components relative to the
      sprite root and the names of the files directly in it, in listing
      order. */
  datatype Dir = Dir(parts: seq<string>, files: seq<string>)

  predicate EndsWith(s: string, suffix: string)
  {
    |suffix| <= |s| && s[|s| - |suffix|..] == suffix
  }

  predicate IsImage(name: string)
  {
    EndsWith(name, ".png") || EndsWith(name, ".gif") || EndsWith(name, ".svg")
  }

  /** The names matched by the glob `*<suffix>`, in listing order. */
  function WithSuffix(names: seq<string>, suffix: string): (r: seq<string>)
    ensures forall n :: n in r <==> n in names && EndsWith(n, suffix)
  {
    if names == [] then []
    else WithSuffix(names[..|names| - 1], suffix) + if EndsWith(names[|names| - 1], suffix) then [names[|names| - 1]] else []
  }

  /** `_itr_image_files`: the `*.png` files, then the `*.gif` files, then the
      `*.svg` files of one directory. */
  function ImageFiles(d: Dir): (r: seq<string>)
    ensures forall n :: n in r <==> n in d.files && IsImage(n)
  {
    WithSuffix(d.files, ".png") + WithSuffix(d.files, ".gif") + WithSuffix(d.files, ".svg")
  }

  /** `str.rfind('.')`: the last index of a dot, -1 when there is none. */
  function LastDot(s: string): (i: int)
    ensures -1 <= i < |s|
    ensures i >= 0 ==> s[i] == '.'
    ensures forall j :: i < j < |s| ==> s[j] != '.'
  {
    if s == [] then -1
    else if s[|s| - 1] == '.' then |s| - 1
    else LastDot(s[..|s| - 1])
  }

  /** `PurePath.stem`: the name without its last suffix; a leading dot or a
      trailing dot does not start a suffix. */
  function Stem(name: string): (stem: string)
    ensures stem <= name
  {
    var i := LastDot(name);
    if 0 < i < |name| - 1 then name[..i] else name
  }

  /** An image file is named by its stem and a dotted extension. */
  lemma StemOfImage(stem: string, ext: string)
    requires ext in {".png", ".gif", ".svg"} && stem != []
    ensures IsImage(stem + ext)
    ensures Stem(stem + ext) == stem
  {
    var name := stem + ext;
    var tail := ext[1..];
    ExtensionShape(ext);
    assert name == (stem + ".") + tail;
    LastDotAfter(stem + ".", tail);
    assert LastDot(stem + ".") == |stem|;
    assert name[..|stem|] == stem;
    assert name[|name| - |ext|..] == ext;
  }

  lemma ExtensionShape(ext: string)
    requires ext in {".png", ".gif", ".svg"}
    ensures |ext| == 4 && ext == "." + ext[1..] && '.' !in ext[1..]
  {
  }

  lemma {:induction false} LastDotAfter(s: string, t: string)
    requires '.' !in t
    ensures LastDot(s + t) == LastDot(s)
    decreases |t|
  {
    if t != [] {
      assert (s + t)[..|s + t| - 1] == s + t[..|t| - 1];
      LastDotAfter(s, t[..|t| - 1]);
    } else {
      assert s + t == s;
    }
  }

  /** The length of the leading run of ASCII digits. */
  function LeadingDigits(s: string): (n: nat)
    ensures n <= |s|
    ensures forall i :: 0 <= i < n ==> IsDigit(s[i])
    ensures n < |s| ==> !IsDigit(s[n])
  {
    if s == [] || !IsDigit(s[0]) then 0 else 1 + LeadingDigits(s[1..])
  }

  /** `_parse_id_and_variant` on a stem: the pattern `^(\d+)(?:[-_]?(.+))?$`
      matched from the start (its `$` also matches before a final newline,
      and `.` matches anything but a newline), then `int()` on the digits,
      which must be positive; an empty variant becomes None. */
  function ParseIdAndVariant(stem: string): (r: Option<(int, Option<string>)>)
    ensures r.Some? ==> r.value.0 > 0
    ensures r.Some? && r.value.1.Some? ==> r.value.1.value != [] && '\n' !in r.value.1.value
    ensures r.Some? ==> stem != [] && IsDigit(stem[0])
  {
    var n := LeadingDigits(stem);
    var rest := stem[n..];
    var core := if rest != [] && rest[|rest| - 1] == '\n' then rest[..|rest| - 1] else rest;
    if n == 0 || '\n' in core then None
    else if n > MaxStrDigits then None
    else
      var pid := DigitsValue(stem[..n]);
      if pid <= 0 then None
      else if core == [] then Some((pid, None))
      else if |core| > 1 && (core[0] == '-' || core[0] == '_') then Some((pid, Some(core[1..])))
      else Some((pid, Some(core)))
  }

  /** `_is_valid_sprite`: the file's stem parses. */
  predicate IsValidSprite(name: string)
  {
    ParseIdAndVariant(Stem(name)).Some?
  }

  /** The id is the value of all the leading digits and the variant is what
      follows them: nothing, the rest after a `-` or `_` separator when more
      follows it, or else the whole rest. */
  lemma ParseDigitsThenRest(digits: string, rest: string)
    requires digits != [] && AllDigits(digits) && |digits| <= MaxStrDigits && DigitsValue(digits) > 0
    requires rest == [] || !IsDigit(rest[0])
    requires '\n' !in rest
    ensures ParseIdAndVariant(digits + rest) == Variant(DigitsValue(digits), rest)
  {
    ParseDigitsThenRestOne(digits, rest);
  }

  /** A final newline is not part of the variant. */
  lemma ParseIgnoresFinalNewline(digits: string, rest: string)
    requires digits != [] && AllDigits(digits) && |digits| <= MaxStrDigits && DigitsValue(digits) > 0
    requires rest == [] || !IsDigit(rest[0])
    requires '\n' !in rest
    ensures ParseIdAndVariant(digits + (rest + "\n")) == Variant(DigitsValue(digits), rest)
  {
    var r := rest + "\n";
    assert r[|r| - 1] == '\n' && r[..|r| - 1] == rest;
    assert r[0] == (if rest == [] then '\n' else rest[0]);
    ParseDigitsThenRestOne(digits, r);
  }

  /** The parse of `digits` followed by `rest` with no newline before its end. */
  function Variant(pid: int, rest: string): Option<(int, Option<string>)>
  {
    Some((pid,
          if rest == [] then None
          else if |rest| > 1 && (rest[0] == '-' || rest[0] == '_') then Some(rest[1..])
          else Some(rest)))
  }

  lemma ParseDigitsThenRestOne(digits: string, rest: string)
    requires digits != [] && AllDigits(digits) && |digits| <= MaxStrDigits && DigitsValue(digits) > 0
    requires rest == [] || !IsDigit(rest[0])
    requires '\n' !in rest || (rest[|rest| - 1] == '\n' && '\n' !in rest[..|rest| - 1])
    ensures var core := if rest != [] && rest[|rest| - 1] == '\n' then rest[..|rest| - 1] else rest;
      ParseIdAndVariant(digits + rest) == Variant(DigitsValue(digits), core)
  {
    var s := digits + rest;
    LeadingDigitsOfDigits(digits, rest);
    assert s[..|digits|] == digits && s[|digits|..] == rest;
  }

  lemma {:induction false} LeadingDigitsOfDigits(digits: string, rest: string)
    requires AllDigits(digits)
    requires rest == [] || !IsDigit(rest[0])
    ensures LeadingDigits(digits + rest) == |digits|
  {
    if digits != [] {
      assert (digits + rest)[1..] == digits[1..] + rest;
      LeadingDigitsOfDigits(digits[1..], rest);
    }
  }

  /** Stems without a leading digit, and ids whose value is zero, never
      parse. */
  lemma ParseRejects()
    ensures ParseIdAndVariant("") == None
    ensures ParseIdAndVariant("mega-25") == None
    ensures ParseIdAndVariant("0") == None
    ensures ParseIdAndVariant("000-mega") == None
  {
    assert LeadingDigits("0") == 1;
    assert LeadingDigits("000-mega") == 3;
    assert "000-mega"[..3] == "000";
    assert DigitsValue("000") == 0 by {
      assert "000"[..2] == "00";
      assert "00"[..1] == "0";
    }
  }

  /** The flags of `_extract_flags`. */
  datatype Flags = Flags(shiny: bool, female: bool, back: bool, grey: bool, transparent: bool, animated: bool, lowRes: bool)

  const NoFlags := Flags(false, false, false, false, false, false, false)

  /** `_extract_flags`: each flag is whether its keyword is one of the
      path's components. */
  function ExtractFlags(parts: seq<string>): Flags
  {
    Flags("shiny" in parts, "female" in parts, "back" in parts, "grey" in parts,
          "transparent" in parts, "animated" in parts, "lowres" in parts)
  }

  function Or(a: Flags, b: Flags): Flags
  {
    Flags(a.shiny || b.shiny, a.female || b.female, a.back || b.back, a.grey || b.grey,
          a.transparent || b.transparent, a.animated || b.animated, a.lowRes || b.lowRes)
  }

  /** Flags are per component: a path's flags are those of its parts taken
      together, and a component that only contains a keyword sets nothing. */
  lemma FlagsOfComponents(p: seq<string>, q: seq<string>)
    ensures ExtractFlags(p + q) == Or(ExtractFlags(p), ExtractFlags(q))
    ensures ExtractFlags([]) == NoFlags
    ensures ExtractFlags(["shiny"]).shiny && !ExtractFlags(["shiny-female", "backs"]).shiny
    ensures ExtractFlags(["shiny-female", "backs"]) == NoFlags
  {
  }

  /** No image file name is a keyword, so a file name alone sets no flag. */
  lemma ImageNameSetsNoFlag(name: string)
    requires IsImage(name)
    ensures ExtractFlags([name]) == NoFlags
  {
    ImageNameHasDot(name);
    NoKeywordHasDot(name);
  }

  lemma ImageNameHasDot(name: string)
    requires IsImage(name)
    ensures '.' in name
  {
    assert name[|name| - 4] == '.';
  }

  lemma NoKeywordHasDot(name: string)
    requires '.' in name
    ensures name != "shiny" && name != "female" && name != "back" && name != "grey"
    ensures name != "transparent" && name != "animated" && name != "lowres"
  {
  }
}
