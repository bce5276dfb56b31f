/** The fixed registry of satellites (entities/SatelliteConstants.java): the
    satelliteName enum and the location enum that maps each name to its
    coordinates. Nothing here changes after start-up. */
module SatelliteConstants {
  import opened Common
  import opened JavaStrings

  /** The enum satelliteName. */
  datatype SatelliteName = KENOBI | SKYWALKER | SATO

  /** A point of the plane (entities.Location); the coordinates are the doubles
      of the table, all of which are whole numbers. */
  datatype Location = Location(x: real, y: real)

  /** name() of an enum constant. */
  function Name(n: SatelliteName): string {
    match n
    case KENOBI => "KENOBI"
    case SKYWALKER => "SKYWALKER"
    case SATO => "SATO"
  }

  /** Enum.valueOf / EnumUtils.isValidEnum: the constant whose name is exactly s,
      if there is one. */
  function ValueOf(s: string): (r: Option<SatelliteName>)
    ensures r.Some? <==> s == "KENOBI" || s == "SKYWALKER" || s == "SATO"
    ensures r.Some? ==> Name(r.value) == s
  {
    if s == "KENOBI" then Some(KENOBI)
    else if s == "SKYWALKER" then Some(SKYWALKER)
    else if s == "SATO" then Some(SATO)
    else None
  }

  /** valueOf inverts name(). */
  lemma ValueOfName(n: SatelliteName)
    ensures ValueOf(Name(n)) == Some(n)
  {
  }

  /** The location enum: the table of coordinates. Every satellite has an entry
      and no two share one. */
  function LocationOf(n: SatelliteName): (p: Location)
    ensures p == Location(-500.0, -200.0) <==> n == KENOBI
    ensures p == Location(100.0, -100.0) <==> n == SKYWALKER
    ensures p == Location(500.0, 100.0) <==> n == SATO
  {
    match n
    case KENOBI => Location(-500.0, -200.0)
    case SKYWALKER => Location(100.0, -100.0)
    case SATO => Location(500.0, 100.0)
  }

  /** The names as a SatelliteMessage of the entities package stores them. */
  const LowerNames: set<string> := {"kenobi", "skywalker", "sato"}

  /** EnumUtils.isValidEnum(satelliteName.class, name.toUpperCase()): the
      upper-cased name is the name of one of the three constants. */
  predicate IsValidName(name: string): (b: bool)
    ensures b <==> ToUpperCase(name) in {"KENOBI", "SKYWALKER", "SATO"}
  {
    ValueOf(ToUpperCase(name)).Some?
  }

  /** A name is valid exactly when it is one of the three, ignoring case: its
      lower-cased form is one of the three lower-case names. */
  lemma ValidNameIgnoresCase(name: string)
    ensures IsValidName(name) <==> ToLowerCase(name) in LowerNames
  {
    var u, l := ToUpperCase(name), ToLowerCase(name);
    LowerOfUpper(name);
    UpperOfLower(name);
    forall n: SatelliteName
      ensures u == Name(n) <==> l == ToLowerCase(Name(n))
    {
      LowerOfUpper(ToLowerCase(Name(n)));
      UpperOfLower(Name(n));
      UpperCaseOfName(n);
    }
    LowerNamesAreLowerCased();
  }

  /** The names of the constants are already upper-case. */
  lemma UpperCaseOfName(n: SatelliteName)
    ensures ToUpperCase(Name(n)) == Name(n)
  {
    assert ToUpperCase(Name(n))[..] == Name(n);
  }

  /** LowerNames holds the lower-cased names of the three constants. */
  lemma LowerNamesAreLowerCased()
    ensures LowerNames == {ToLowerCase(Name(KENOBI)), ToLowerCase(Name(SKYWALKER)), ToLowerCase(Name(SATO))}
  {
    assert ToLowerCase(Name(KENOBI)) == "kenobi";
    assert ToLowerCase(Name(SKYWALKER)) == "skywalker";
    assert ToLowerCase(Name(SATO)) == "sato";
  }

  /** The constant a valid name denotes is the one its lower-cased form names. */
  lemma ValidNameDenotes(name: string)
    requires IsValidName(name)
    ensures ToLowerCase(name) == ToLowerCase(Name(ValueOf(ToUpperCase(name)).value))
  {
    LowerOfUpper(name);
  }
}
