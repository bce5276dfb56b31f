/** objects.SatelliteMessage: the same report as entities.SatelliteMessage and
    the same acceptance condition, but with its own private enums and a name
    kept exactly as the caller spelled it. */
module ObjectSatelliteMessage {
  import opened Common
  import opened JavaStrings
  import opened SatelliteConstants
  import opened ServiceTypes
  import EntitySatelliteMessage

  /** The class's private location enum. */
  function PrivateLocation(n: SatelliteName): (p: Location)
    ensures p == LocationOf(n)
  {
    match n
    case KENOBI => Location(-500.0, -200.0)
    case SKYWALKER => Location(100.0, -100.0)
    case SATO => Location(500.0, 100.0)
  }

  class SatelliteMessage {
    var distance: real
    var message: seq<string>
    var name: string
    var satelliteLocation: Location

    /** Some words, a name that upper-cases to one of the three satellites in
        whatever case it came, and that satellite's location. */
    ghost predicate Valid()
      reads this
    {
      && |message| > 0
      && IsValidName(name)
      && satelliteLocation == PrivateLocation(EntitySatelliteMessage.Satellite(name))
    }

    /** What getName, getDistance and getMessage return. */
    function Snapshot(): Reading
      reads this
    {
      Reading(name, distance, message)
    }

    /** The constructor once its condition holds: the name is stored as given. */
    constructor (message: seq<string>, distance: real, name: string)
      requires EntitySatelliteMessage.Accepts(Some(message), Some(distance), Some(name))
      ensures this.message == message && this.distance == distance && this.name == name
      ensures satelliteLocation == LocationOf(EntitySatelliteMessage.Satellite(name))
      ensures Valid()
    {
      this.name := name;
      this.distance := distance;
      this.message := message;
      this.satelliteLocation := PrivateLocation(EntitySatelliteMessage.Satellite(name));
    }

    /** setMessage: replaces the words, or refuses null and the empty array. */
    method SetMessage(message: Option<seq<string>>) returns (ok: bool)
      modifies this
      ensures ok <==> message.Some? && |message.value| > 0
      ensures this.message == (if ok then message.value else old(this.message))
      ensures distance == old(distance) && name == old(name)
      ensures satelliteLocation == old(satelliteLocation)
      ensures old(Valid()) ==> Valid()
    {
      ok := message.Some? && |message.value| > 0;
      if ok {
        this.message := message.value;
      }
    }

    /** setDistance: replaces the distance, or refuses null. */
    method SetDistance(distance: Option<real>) returns (ok: bool)
      modifies this
      ensures ok <==> distance.Some?
      ensures this.distance == (if ok then distance.value else old(this.distance))
      ensures message == old(message) && name == old(name)
      ensures satelliteLocation == old(satelliteLocation)
      ensures old(Valid()) ==> Valid()
    {
      ok := distance.Some?;
      if ok {
        this.distance := distance.value;
      }
    }

    /** setName: replaces the name, as given, and the location with it, or
        refuses null and a name that is not one of the three. */
    method SetName(name: Option<string>) returns (ok: bool)
      modifies this
      ensures ok <==> name.Some? && ToLowerCase(name.value) in LowerNames
      ensures ok ==> this.name == name.value
      ensures ok ==> satelliteLocation == LocationOf(EntitySatelliteMessage.Satellite(name.value))
      ensures !ok ==> this.name == old(this.name) && satelliteLocation == old(satelliteLocation)
      ensures message == old(message) && distance == old(distance)
      ensures old(Valid()) ==> Valid()
    {
      if name.Some? {
        ValidNameIgnoresCase(name.value);
      }
      ok := name.Some? && IsValidName(name.value);
      if ok {
        this.name := name.value;
        this.satelliteLocation := PrivateLocation(EntitySatelliteMessage.Satellite(name.value));
      }
    }
  }

  /** What a caller reads of a valid message: some words, a name that denotes
      one of the three satellites in whatever case it came, and that
      satellite's location. */
  lemma ValidReport(m: SatelliteMessage)
    requires m.Valid()
    ensures |m.Snapshot().message| > 0
    ensures IsValidName(m.Snapshot().name) && ToLowerCase(m.Snapshot().name) in LowerNames
    ensures m.satelliteLocation == LocationOf(EntitySatelliteMessage.Satellite(m.Snapshot().name))
  {
    ValidNameIgnoresCase(m.name);
  }

  /** new SatelliteMessage(message, distance, name): a fresh, valid object that
      keeps the name's spelling exactly when the arguments are accepted, and
      JsonParseException (None) otherwise. */
  method Create(message: Option<seq<string>>, distance: Option<real>, name: Option<string>)
    returns (r: Option<SatelliteMessage>)
    ensures r.Some? <==> EntitySatelliteMessage.Accepts(message, distance, name)
    ensures r.Some? ==> && fresh(r.value) && r.value.Valid()
                        && r.value.Snapshot() == Reading(name.value, distance.value, message.value)
                        && r.value.satelliteLocation == LocationOf(EntitySatelliteMessage.Satellite(name.value))
  {
    if EntitySatelliteMessage.Accepts(message, distance, name) {
      var m := new SatelliteMessage(message.value, distance.value, name.value);
      r := Some(m);
    } else {
      r := None;
    }
  }
}
