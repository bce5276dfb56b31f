/** entities.SatelliteMessage: one satellite's report as the services keep it.
    The constructor and setters refuse what they cannot accept by throwing
    JsonParseException, which leaves the object as it was (or, for the
    constructor, not built at all). A name that is accepted is stored
    lower-cased. Java's null becomes None. */
module EntitySatelliteMessage {
  import opened Common
  import opened JavaStrings
  import opened SatelliteConstants
  import opened ServiceTypes

  /** The constructor's condition: no null argument, at least one word, and a
      name that upper-cases to one of the satelliteName constants. No range is
      demanded of the distance. */
  predicate Accepts(message: Option<seq<string>>, distance: Option<real>, name: Option<string>): (b: bool)
    ensures b <==> && message.Some? && |message.value| > 0
                   && distance.Some?
                   && name.Some? && ToLowerCase(name.value) in LowerNames
  {
    if name.None? then false
    else
      ValidNameIgnoresCase(name.value);
      message.Some? && distance.Some? && |message.value| > 0 && IsValidName(name.value)
  }

  /** The satellite an accepted name denotes. */
  function Satellite(name: string): SatelliteName
    requires IsValidName(name)
  {
    ValueOf(ToUpperCase(name)).value
  }

  /** The name is stored lower-cased, and lower-casing it again changes nothing
      and denotes the same satellite. */
  lemma LowerCasedNameIsCanonical(name: string)
    requires IsValidName(name)
    ensures ToLowerCase(name) in LowerNames && IsValidName(ToLowerCase(name))
    ensures ToLowerCase(ToLowerCase(name)) == ToLowerCase(name)
    ensures Satellite(ToLowerCase(name)) == Satellite(name)
  {
    ValidNameIgnoresCase(name);
    UpperOfLower(name);
    var l := ToLowerCase(name);
    assert ToLowerCase(l) == l by {
      forall i | 0 <= i < |l| ensures ToLowerCase(l)[i] == l[i] {
        assert LowerChar(LowerChar(name[i])) == LowerChar(name[i]);
      }
    }
  }

  class SatelliteMessage {
    var distance: real
    var message: seq<string>
    var name: string
    var satelliteLocation: Location

    /** What every accepted construction and update keeps: some words, a
        lower-case name of one of the three satellites, and that satellite's
        location. */
    ghost predicate Valid()
      reads this
    {
      && |message| > 0
      && name in LowerNames
      && IsValidName(name)
      && satelliteLocation == LocationOf(Satellite(name))
    }

    /** What getName, getDistance and getMessage return. */
    function Snapshot(): Reading
      reads this
    {
      Reading(name, distance, message)
    }

    /** The constructor once its condition holds. */
    constructor (message: seq<string>, distance: real, name: string)
      requires Accepts(Some(message), Some(distance), Some(name))
      ensures this.message == message && this.distance == distance
      ensures this.name == ToLowerCase(name)
      ensures satelliteLocation == LocationOf(Satellite(name))
      ensures Valid()
    {
      LowerCasedNameIsCanonical(name);
      this.name := ToLowerCase(name);
      this.distance := distance;
      this.message := message;
      this.satelliteLocation := LocationOf(Satellite(name));
    }

    /** setMessage: replaces the words, or refuses null and the empty array. */
    method SetMessage(message: Option<seq<string>>) returns (ok: bool)
      modifies this
      ensures ok <==> message.Some? && |message.value| > 0
      ensures this.message == (if ok then message.value else old(this.message))
      ensures distance == old(distance) && name == old(name)
      ensures satelliteLocation == old(satelliteLocation)
      ensures old(Valid()) ==> Valid()
    {
      ok := message.Some? && |message.value| > 0;
      if ok {
        this.message := message.value;
      }
    }

    /** setDistance: replaces the distance, or refuses null. */
    method SetDistance(distance: Option<real>) returns (ok: bool)
      modifies this
      ensures ok <==> distance.Some?
      ensures this.distance == (if ok then distance.value else old(this.distance))
      ensures message == old(message) && name == old(name)
      ensures satelliteLocation == old(satelliteLocation)
      ensures old(Valid()) ==> Valid()
    {
      ok := distance.Some?;
      if ok {
        this.distance := distance.value;
      }
    }

    /** setName: replaces the name (lower-cased) and the location with it, or
        refuses null and a name that is not one of the three. */
    method SetName(name: Option<string>) returns (ok: bool)
      modifies this
      ensures ok <==> name.Some? && ToLowerCase(name.value) in LowerNames
      ensures ok ==> this.name == ToLowerCase(name.value)
      ensures ok ==> satelliteLocation == LocationOf(Satellite(name.value))
      ensures !ok ==> this.name == old(this.name) && satelliteLocation == old(satelliteLocation)
      ensures message == old(message) && distance == old(distance)
      ensures old(Valid()) ==> Valid()
    {
      if name.Some? {
        ValidNameIgnoresCase(name.value);
      }
      ok := name.Some? && IsValidName(name.value);
      if ok {
        LowerCasedNameIsCanonical(name.value);
        this.name := ToLowerCase(name.value);
        this.satelliteLocation := LocationOf(Satellite(name.value));
      }
    }
  }

  /** new SatelliteMessage(message, distance, name): a fresh, valid object
      exactly when the arguments are accepted, and JsonParseException (None)
      otherwise. */
  method Create(message: Option<seq<string>>, distance: Option<real>, name: Option<string>)
    returns (r: Option<SatelliteMessage>)
    ensures r.Some? <==> Accepts(message, distance, name)
    ensures r.Some? ==> && fresh(r.value) && r.value.Valid()
                        && r.value.Snapshot() == Reading(ToLowerCase(name.value), distance.value, message.value)
                        && r.value.satelliteLocation == LocationOf(Satellite(name.value))
  {
    if Accepts(message, distance, name) {
      var m := new SatelliteMessage(message.value, distance.value, name.value);
      r := Some(m);
    } else {
      r := None;
    }
  }

  /** What a caller reads of a valid message: some words, a lower-case name of
      one of the three satellites, and that satellite's location. */
  lemma ValidReport(m: SatelliteMessage)
    requires m.Valid()
    ensures |m.Snapshot().message| > 0
    ensures m.Snapshot().name in LowerNames && IsValidName(m.Snapshot().name)
    ensures ToLowerCase(m.Snapshot().name) == m.Snapshot().name
    ensures m.satelliteLocation == LocationOf(Satellite(m.Snapshot().name))
  {
    LowerCasedNameIsCanonical(m.name);
    LowerNamesAreLowerCased();
  }

  /** Two spellings of a name that differ only in case are stored alike. */
  lemma CaseVariantsStoredAlike(a: string, b: string)
    requires IsValidName(a) && ToUpperCase(a) == ToUpperCase(b)
    ensures IsValidName(b)
    ensures ToLowerCase(a) == ToLowerCase(b)
    ensures Satellite(a) == Satellite(b)
  {
    CaseInsensitiveEquality(a, b);
  }
}
