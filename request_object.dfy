/** objects.RequestObject: the three reports of one request. Construction and
    setSatelliteMessages accept an array exactly when it has three entries
    whose names, as the entries store them, are pairwise different; anything
    else is refused with JsonParseException and changes nothing. */
module RequestObjects {
  import opened Common
  import opened ServiceTypes
  import ObjectSatelliteMessage

  type Message = ObjectSatelliteMessage.SatelliteMessage

  /** The names the entries report, in array order. */
  function NamesOf(ms: seq<Message>): seq<string>
    reads ms
  {
    seq(|ms|, i reads ms requires 0 <= i < |ms| => ms[i].name)
  }

  /** The HashSet the constructor fills with getName() of every entry. */
  method NameSet(ms: seq<Message>) returns (nameSet: set<string>)
    ensures nameSet == set i | 0 <= i < |ms| :: ms[i].name
  {
    nameSet := {};
    for k := 0 to |ms|
      invariant nameSet == set i | 0 <= i < k :: ms[i].name
    {
      nameSet := nameSet + {ms[k].name};
    }
  }

  /** The array check: length 3 and a name set of size 3, which is the same as
      three pairwise different names. */
  method CheckSatellites(ms: Option<seq<Message>>) returns (ok: bool)
    ensures ok <==> ms.Some? && DistinctNames(NamesOf(ms.value))
  {
    if ms.None? || |ms.value| != 3 {
      return false;
    }
    var nameSet := NameSet(ms.value);
    var m := ms.value;
    assert nameSet == {m[0].name, m[1].name, m[2].name};
    ThreeDistinct(m[0].name, m[1].name, m[2].name);
    ok := |nameSet| == 3;
  }

  class RequestObject {
    var satelliteMessages: seq<Message>

    /** The constructor once the check has passed: the array is kept as given. */
    constructor (satelliteMessages: seq<Message>)
      requires DistinctNames(NamesOf(satelliteMessages))
      ensures this.satelliteMessages == satelliteMessages
    {
      this.satelliteMessages := satelliteMessages;
    }

    /** setSatelliteMessages: replaces the array when it passes the check, and
        otherwise refuses it and keeps the old one. */
    method SetSatelliteMessages(ms: Option<seq<Message>>) returns (ok: bool)
      modifies this
      ensures ok <==> ms.Some? && DistinctNames(NamesOf(ms.value))
      ensures satelliteMessages == (if ok then ms.value else old(satelliteMessages))
    {
      ok := CheckSatellites(ms);
      if ok {
        satelliteMessages := ms.value;
      }
    }
  }

  /** new RequestObject(satelliteMessages): a fresh object holding the array
      when it passes the check, and JsonParseException (None) otherwise. */
  method Create(ms: Option<seq<Message>>) returns (r: Option<RequestObject>)
    ensures r.Some? <==> ms.Some? && DistinctNames(NamesOf(ms.value))
    ensures r.Some? ==> fresh(r.value) && r.value.satelliteMessages == ms.value
  {
    var ok := CheckSatellites(ms);
    if ok {
      var o := new RequestObject(ms.value);
      r := Some(o);
    } else {
      r := None;
    }
  }

  /** Names are compared as stored, so two spellings of one satellite pass as
      two satellites, while a repeated spelling is refused. */
  lemma CaseSensitiveCheck()
    ensures DistinctNames(["KENOBI", "kenobi", "sato"])
    ensures !DistinctNames(["kenobi", "kenobi", "sato"])
  {
  }
}
