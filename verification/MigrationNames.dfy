/** Migration file names, NNNNNN_slug.{up,down}.sql, as `parseMigrationName` reads them. */
module MigrationNames {
  import opened Text

  datatype Direction = Up | Down

  datatype MigrationFile = MigrationFile(version: int, slug: string, direction: Direction, name: string)

  datatype NameError = BadSuffix | NoVersionPrefix | NotANumber | NotSixDigits | EmptySlug

  const MIN_INT: int := -0x8000_0000_0000_0000
  const MAX_INT: int := 0x7FFF_FFFF_FFFF_FFFF

  predicate IsDigit(c: char) {
    '0' <= c <= '9'
  }

  function DigitOf(d: nat): char
    requires d < 10
  {
    '0' + d as char
  }

  /** The value of a string of digits. */
  function Value(s: string): nat
    requires forall i | 0 <= i < |s| :: IsDigit(s[i])
  {
    if s == "" then 0 else
      var last := s[|s| - 1];
      assert IsDigit(last);
      10 * Value(s[..|s| - 1]) + (last as int - '0' as int)
  }

  predicate AllDigits(s: string) {
    s != "" && forall i | 0 <= i < |s| :: IsDigit(s[i])
  }

  /** `strconv.Atoi`: an optional sign, then digits, within 64 bits. */
  function Atoi(s: string): Option<int> {
    var signed := s != "" && (s[0] == '+' || s[0] == '-');
    var digits := if signed then s[1..] else s;
    if !AllDigits(digits) then None
    else
      var n: int := if signed && s[0] == '-' then 0 - Value(digits) else Value(digits);
      if MIN_INT <= n <= MAX_INT then Some(n) else None
  }

  /** `strings.Index` of a character: the length when it is absent. */
  function IndexOf(s: string, c: char): (i: nat)
    ensures i <= |s| && c !in s[..i] && (i < |s| ==> s[i] == c)
  {
    if s == "" || s[0] == c then 0 else
      var i := 1 + IndexOf(s[1..], c);
      assert s[..i] == [s[0]] + s[1..][..i - 1];
      i
  }

  function TrimSuffix(s: string, suffix: string): string {
    if HasSuffix(s, suffix) then s[..|s| - |suffix|] else s
  }

  function ParseMigrationName(name: string): Result<MigrationFile, NameError> {
    var base := TrimSuffix(name, ".sql");
    if HasSuffix(base, ".up") then ParseBase(name, TrimSuffix(base, ".up"), Up)
    else if HasSuffix(base, ".down") then ParseBase(name, TrimSuffix(base, ".down"), Down)
    else Err(BadSuffix)
  }

  function ParseBase(name: string, base: string, direction: Direction): Result<MigrationFile, NameError> {
    var under := IndexOf(base, '_');
    if under == |base| || under == 0 then Err(NoVersionPrefix)
    else
      var digits := base[..under];
      var version := Atoi(digits);
      var slug := base[under + 1..];
      if version.None? then Err(NotANumber)
      else if |digits| != 6 then Err(NotSixDigits)
      else if slug == "" then Err(EmptySlug)
      else Ok(MigrationFile(version.value, slug, direction, name))
  }

  // ------------------------------------------------------------------
  // Printing
  // ------------------------------------------------------------------

  /** The last `width` decimal digits, as %06d prints them for width 6. */
  function Digits(version: nat, width: nat): string {
    if width == 0 then "" else Digits(version / 10, width - 1) + [DigitOf(version % 10)]
  }

  function Extension(d: Direction): string {
    if d == Up then ".up" else ".down"
  }

  function PrintName(version: nat, slug: string, direction: Direction): string {
    Digits(version, 6) + "_" + slug + Extension(direction) + ".sql"
  }

  function Power10(n: nat): nat {
    if n == 0 then 1 else 10 * Power10(n - 1)
  }

  lemma {:induction false} DigitsRoundTrip(version: nat, width: nat)
    requires version < Power10(width)
    ensures |Digits(version, width)| == width
    ensures forall i | 0 <= i < width :: IsDigit(Digits(version, width)[i])
    ensures Value(Digits(version, width)) == version
  {
    if width > 0 {
      DigitsRoundTrip(version / 10, width - 1);
      var s := Digits(version, width);
      assert s[..|s| - 1] == Digits(version / 10, width - 1);
    }
  }

  lemma SuffixOf(stem: string, suffix: string)
    ensures HasSuffix(stem + suffix, suffix) && TrimSuffix(stem + suffix, suffix) == stem
  {
  }

  lemma {:induction false} FirstUnderscore(digits: string, rest: string)
    requires '_' !in digits
    ensures IndexOf(digits + "_" + rest, '_') == |digits|
  {
    if digits != "" {
      assert (digits + "_" + rest)[1..] == digits[1..] + "_" + rest;
      FirstUnderscore(digits[1..], rest);
    }
  }

  lemma DownIsNotUp(stem: string)
    ensures !HasSuffix(stem + ".down", ".up")
  {
    var s := stem + ".down";
    assert s[|s| - 3..][2] == 'n' && ".up"[2] == 'p';
  }

  /** Reading a printed name gives back what was printed, for every six-digit version and every non-empty slug. */
  lemma ParsePrint(version: nat, slug: string, direction: Direction)
    requires version <= 999999 && slug != ""
    ensures var name := PrintName(version, slug, direction);
            ParseMigrationName(name) == Ok(MigrationFile(version, slug, direction, name))
  {
    var name := PrintName(version, slug, direction);
    var digits := Digits(version, 6);
    assert Power10(6) == 1000000 by {
      assert Power10(2) == 100 && Power10(4) == 10000;
    }
    DigitsRoundTrip(version, 6);
    var base := digits + "_" + slug;
    SuffixOf(base + Extension(direction), ".sql");
    SuffixOf(base, Extension(direction));
    if direction == Down {
      DownIsNotUp(base);
    }
    assert '_' !in digits by {
      forall i | 0 <= i < |digits| ensures digits[i] != '_' { }
    }
    FirstUnderscore(digits, slug);
    ParsePrintedBase(name, version, slug, direction);
  }

  lemma ParsePrintedBase(name: string, version: nat, slug: string, direction: Direction)
    requires slug != "" && |Digits(version, 6)| == 6
    requires forall i | 0 <= i < 6 :: IsDigit(Digits(version, 6)[i])
    requires Value(Digits(version, 6)) == version <= 999999
    requires IndexOf(Digits(version, 6) + "_" + slug, '_') == 6
    ensures ParseBase(name, Digits(version, 6) + "_" + slug, direction) ==
            Ok(MigrationFile(version, slug, direction, name))
  {
    var digits := Digits(version, 6);
    var base := digits + "_" + slug;
    assert base[..6] == digits;
    assert base[7..] == slug;
    assert Atoi(digits) == Some(version);
  }

  /** So no two migrations print to the same name. */
  lemma PrintInjective(v: nat, slug: string, d: Direction, w: nat, slug': string, e: Direction)
    requires v <= 999999 && w <= 999999 && slug != "" && slug' != ""
    requires PrintName(v, slug, d) == PrintName(w, slug', e)
    ensures v == w && slug == slug' && d == e
  {
    ParsePrint(v, slug, d);
    ParsePrint(w, slug', e);
  }

  // ------------------------------------------------------------------
  // What is accepted and what is refused
  // ------------------------------------------------------------------

  /** What may follow the direction: the ending is trimmed only if it is there. */
  predicate IsEnding(s: string) {
    s == "" || s == ".sql"
  }

  lemma ExtensionIsNoEnding(stem: string, direction: Direction)
    ensures !HasSuffix(stem + Extension(direction), ".sql")
  {
    var s := stem + Extension(direction);
    if |s| >= 4 {
      assert s[|s| - 4..][3] == s[|s| - 1] && ".sql"[3] == 'l';
    }
  }

  lemma UpIsNotDown(stem: string)
    ensures !HasSuffix(stem + ".up", ".down")
  {
    var s := stem + ".up";
    if |s| >= 5 {
      assert s[|s| - 5..][4] == 'p' && ".down"[4] == 'n';
    }
  }

  /** The part before the direction is what decides. */
  lemma ParseStem(stem: string, direction: Direction, ending: string)
    requires IsEnding(ending)
    ensures var name := stem + Extension(direction) + ending;
            ParseMigrationName(name) == ParseBase(name, stem, direction)
  {
    var base := stem + Extension(direction);
    if ending == ".sql" {
      SuffixOf(base, ".sql");
    } else {
      ExtensionIsNoEnding(stem, direction);
      assert base + "" == base;
    }
    SuffixOf(stem, Extension(direction));
    if direction == Down {
      DownIsNotUp(stem);
    }
  }

  /** A name is refused for its ending only if it does not have a direction and an ending. */
  lemma DirectionIsFound(name: string) returns (stem: string, direction: Direction, ending: string)
    requires ParseMigrationName(name) != Err(BadSuffix)
    ensures IsEnding(ending) && name == stem + Extension(direction) + ending
  {
    var base := TrimSuffix(name, ".sql");
    ending := if HasSuffix(name, ".sql") then ".sql" else "";
    direction := if HasSuffix(base, ".up") then Up else Down;
    stem := TrimSuffix(base, Extension(direction));
    TrimSuffixSplits(name, ".sql");
    TrimSuffixSplits(base, Extension(direction));
  }

  lemma TrimSuffixSplits(s: string, suffix: string)
    ensures s == TrimSuffix(s, suffix) + if HasSuffix(s, suffix) then suffix else ""
  {
  }

  /** And one that has both is not. */
  lemma DirectionIsEnough(stem: string, direction: Direction, ending: string)
    requires IsEnding(ending)
    ensures ParseMigrationName(stem + Extension(direction) + ending) != Err(BadSuffix)
  {
    ParseStem(stem, direction, ending);
  }

  /** Without an underscore, or with nothing before it, there is no version. */
  lemma NoUnderscoreIsRefused(stem: string, direction: Direction, ending: string)
    requires IsEnding(ending) && ('_' !in stem || stem[0] == '_')
    ensures ParseMigrationName(stem + Extension(direction) + ending) == Err(NoVersionPrefix)
  {
    ParseStem(stem, direction, ending);
    var under := IndexOf(stem, '_');
    assert under < |stem| ==> stem[under] in stem;
  }

  /**
    Everything else has a prefix and a slug, and is read if and only if the prefix is a
    number of exactly six characters and the slug is not empty; otherwise it is refused
    for the first of these that fails.
  */
  lemma ParseParts(digits: string, slug: string, direction: Direction, ending: string)
    requires IsEnding(ending) && digits != "" && '_' !in digits
    ensures var name := digits + "_" + slug + Extension(direction) + ending;
      ParseMigrationName(name) ==
      if Atoi(digits).None? then Err(NotANumber)
      else if |digits| != 6 then Err(NotSixDigits)
      else if slug == "" then Err(EmptySlug)
      else Ok(MigrationFile(Atoi(digits).value, slug, direction, name))
  {
    var stem := digits + "_" + slug;
    ParseStem(stem, direction, ending);
    FirstUnderscore(digits, slug);
    assert stem[..|digits|] == digits && stem[|digits| + 1..] == slug;
  }

  /** A number is digits, or a sign and digits, that fit in 64 bits. */
  lemma AtoiDigits(digits: string)
    requires AllDigits(digits)
    ensures Atoi(digits) == if Value(digits) <= 9223372036854775807 then Some(Value(digits)) else None
  {
    assert IsDigit(digits[0]);
  }

  lemma AtoiSigned(sign: char, digits: string)
    requires AllDigits(digits) && (sign == '+' || sign == '-')
    ensures var n: int := if sign == '-' then 0 - Value(digits) else Value(digits);
            Atoi([sign] + digits) ==
            if -9223372036854775808 <= n <= 9223372036854775807 then Some(n) else None
  {
    var s := [sign] + digits;
    assert s[0] == sign && s[1..] == digits;
  }

  /** Nothing else is one. */
  lemma AtoiRefuses(s: string)
    requires !AllDigits(s) && !(s != "" && (s[0] == '+' || s[0] == '-') && AllDigits(s[1..]))
    ensures Atoi(s).None?
  {
    var signed := s != "" && (s[0] == '+' || s[0] == '-');
    var digits := if signed then s[1..] else s;
    assert !AllDigits(digits);
  }
}
