/**
 * The shared configuration record read by both controllers and written by the
 * web handlers, and its encoding for the key/value store.
 */
module State {
  import opened Prelude
  import Rgb
  import Streetlamps
  import UnderpassLights

  /** The whole configuration; Dafny's datatype equality is the derived structural `PartialEq`. */
  datatype SharedState = SharedState(
    streetlampsEnabled: bool,
    streetlampsBrightness: u8,
    streetlampsModes: Streetlamps.LampModes,
    underpassLightsState: UnderpassLights.LightingState)

  /** The mutex-guarded cell holding the one configuration; each handler runs with the lock held. */
  class SharedStateMutex {
    var state: SharedState

    constructor (init: SharedState)
      ensures state == init
    {
      state := init;
    }
  }

  /** The two errors of the store's serialization interface this record produces. */
  datatype SerializationError = BufferTooSmall | InvalidData

  /**
   * The in-memory size the record must stay under; the Rust code checks it when
   * compiling, so it is a stated constant here, not a proved property.
   */
  const SizeCeiling: nat := 100

  /**
   * `serialize_into`: run the encoder on the record and the buffer. The
   * encoder returns its result and the buffer as it leaves it. Its byte count
   * is handed back on success; any encoder failure becomes BufferTooSmall.
   */
  function SerializeInto<E>(s: SharedState, buffer: seq<u8>,
                            encodeIntoSlice: (SharedState, seq<u8>) -> (Result<nat, E>, seq<u8>))
    : (r: (Result<nat, SerializationError>, seq<u8>))
    ensures r.1 == encodeIntoSlice(s, buffer).1
    ensures r.0.Ok? <==> encodeIntoSlice(s, buffer).0.Ok?
    ensures r.0.Ok? ==> r.0.value == encodeIntoSlice(s, buffer).0.value
    ensures r.0.Err? ==> r.0.error == BufferTooSmall
  {
    var (res, written) := encodeIntoSlice(s, buffer);
    match res
    case Ok(count) => (Ok(count), written)
    case Err(_) => (Err(BufferTooSmall), written)
  }

  /**
   * `deserialize_from`: run the decoder on the buffer. The decoded record is
   * returned and the consumed length dropped; any decoder failure becomes InvalidData.
   */
  function DeserializeFrom<D>(buffer: seq<u8>, decodeFromSlice: seq<u8> -> Result<(SharedState, nat), D>)
    : (r: Result<SharedState, SerializationError>)
    ensures r.Ok? <==> decodeFromSlice(buffer).Ok?
    ensures r.Ok? ==> r.value == decodeFromSlice(buffer).value.0
    ensures r.Err? ==> r.error == InvalidData
  {
    match decodeFromSlice(buffer)
    case Ok((state, _)) => Ok(state)
    case Err(_) => Err(InvalidData)
  }

  /**
   * If the codec decodes what it encodes, a record serialized successfully is
   * restored equal from the bytes written.
   */
  lemma StoreThenRestore<E, D>(s: SharedState, buffer: seq<u8>,
                               encodeIntoSlice: (SharedState, seq<u8>) -> (Result<nat, E>, seq<u8>),
                               decodeFromSlice: seq<u8> -> Result<(SharedState, nat), D>)
    requires encodeIntoSlice(s, buffer).0.Ok? ==>
      decodeFromSlice(encodeIntoSlice(s, buffer).1).Ok? && decodeFromSlice(encodeIntoSlice(s, buffer).1).value.0 == s
    ensures SerializeInto(s, buffer, encodeIntoSlice).0.Ok? ==>
      DeserializeFrom(SerializeInto(s, buffer, encodeIntoSlice).1, decodeFromSlice) == Ok(s)
  {
  }

  /** Equality compares every field and every lamp mode. */
  lemma EqualityIsStructural(s: SharedState, t: SharedState)
    ensures s == t <==>
      && s.streetlampsEnabled == t.streetlampsEnabled
      && s.streetlampsBrightness == t.streetlampsBrightness
      && (forall i :: 0 <= i < Streetlamps.NumLamps ==> s.streetlampsModes[i] == t.streetlampsModes[i])
      && s.underpassLightsState == t.underpassLightsState
  {
    if forall i :: 0 <= i < Streetlamps.NumLamps ==> s.streetlampsModes[i] == t.streetlampsModes[i] {
      assert s.streetlampsModes == t.streetlampsModes;
    }
  }

  /** Changing one lamp's mode, or only the colour of the lighting state, is a change. */
  lemma SingleChangesDetected(s: SharedState, i: nat, m: Streetlamps.StreetlampMode, c: Rgb.Rgb8)
    requires i < Streetlamps.NumLamps
    ensures m != s.streetlampsModes[i] ==> s.(streetlampsModes := s.streetlampsModes[i := m]) != s
    ensures s.underpassLightsState.SingleColour? && c != s.underpassLightsState.colour ==>
      s.(underpassLightsState := UnderpassLights.SingleColour(c)) != s
    ensures s.underpassLightsState.Cars? && c != s.underpassLightsState.defaultColor ==>
      s.(underpassLightsState := UnderpassLights.Cars(c)) != s
  {
    if m != s.streetlampsModes[i] {
      assert s.(streetlampsModes := s.streetlampsModes[i := m]).streetlampsModes[i] == m;
    }
  }
}
