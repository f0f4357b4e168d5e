/** The web handlers that read and change the shared configuration. */
module Web {
  import opened Prelude
  import opened Streetlamps
  import opened State

  /** The lamp mode a `/lamp/{id}/{state}` request's state code selects. */
  function ModeOfCode(code: u8): StreetlampMode {
    match code
    case 0 => Off
    case 1 => On
    case 2 => Flickering(90)
    case _ => Off
  }

  /** The configuration after `/power`: the master enable flipped. */
  function PowerToggled(s: SharedState): SharedState {
    s.(streetlampsEnabled := !s.streetlampsEnabled)
  }

  /** The configuration after `/lamp/{id}/{code}`: lamp `id` set, when it exists. */
  function LampSet(s: SharedState, id: nat, code: u8): SharedState {
    if id < |s.streetlampsModes| then s.(streetlampsModes := s.streetlampsModes[id := ModeOfCode(code)])
    else s
  }

  /** `get_state`: a copy of the configuration; nothing changes. */
  method GetState(shared: SharedStateMutex) returns (r: SharedState)
    ensures r == shared.state
  {
    r := shared.state;
  }

  /** `set_state`: replace the whole configuration and answer with it. */
  method SetState(shared: SharedStateMutex, state: SharedState) returns (r: SharedState)
    modifies shared
    ensures shared.state == state && r == state
  {
    shared.state := state;
    r := shared.state;
  }

  /** `/power`: flip the master enable and answer with its new value. */
  method TogglePower(shared: SharedStateMutex) returns (power: bool)
    modifies shared
    ensures shared.state == PowerToggled(old(shared.state))
    ensures power == shared.state.streetlampsEnabled == !old(shared.state.streetlampsEnabled)
  {
    shared.state := shared.state.(streetlampsEnabled := !shared.state.streetlampsEnabled);
    power := shared.state.streetlampsEnabled;
  }

  /** `/lamp/{id}/{state}`: set one lamp's mode from a code; an unknown lamp is ignored. */
  method SetLamp(shared: SharedStateMutex, id: nat, code: u8)
    modifies shared
    ensures shared.state == LampSet(old(shared.state), id, code)
  {
    if id < |shared.state.streetlampsModes| {
      shared.state := shared.state.(streetlampsModes := shared.state.streetlampsModes[id := ModeOfCode(code)]);
    }
  }

  /** A `get_state` after `set_state` reads back the record that was set. */
  method SetThenGet(shared: SharedStateMutex, state: SharedState) returns (echoed: SharedState, read: SharedState)
    modifies shared
    ensures echoed == state && read == state && shared.state == state
  {
    echoed := SetState(shared, state);
    read := GetState(shared);
  }

  /** The code table: 0 is Off, 1 is On, 2 is Flickering at 90 percent, anything else is Off. */
  lemma CodeTable(code: u8)
    ensures code == 1 <==> ModeOfCode(code) == On
    ensures code == 2 <==> ModeOfCode(code) == Flickering(90)
    ensures code != 1 && code != 2 <==> ModeOfCode(code) == Off
  {
  }

  /** Toggling flips only the enable, and toggling twice restores the configuration. */
  lemma PowerToggleProperties(s: SharedState)
    ensures PowerToggled(s).streetlampsEnabled == !s.streetlampsEnabled
    ensures PowerToggled(s).streetlampsBrightness == s.streetlampsBrightness
    ensures PowerToggled(s).streetlampsModes == s.streetlampsModes
    ensures PowerToggled(s).underpassLightsState == s.underpassLightsState
    ensures PowerToggled(PowerToggled(s)) == s
    ensures PowerToggled(s) != s
  {
  }

  /**
   * Setting a lamp changes only that lamp's mode, to the code's mode; an index
   * of 6 or more changes nothing; repeating the request changes nothing more.
   */
  lemma LampSetProperties(s: SharedState, id: nat, code: u8)
    ensures id >= NumLamps ==> LampSet(s, id, code) == s
    ensures id < NumLamps ==> LampSet(s, id, code).streetlampsModes[id] == ModeOfCode(code)
    ensures forall j :: 0 <= j < NumLamps && j != id ==> LampSet(s, id, code).streetlampsModes[j] == s.streetlampsModes[j]
    ensures LampSet(s, id, code).streetlampsEnabled == s.streetlampsEnabled
    ensures LampSet(s, id, code).streetlampsBrightness == s.streetlampsBrightness
    ensures LampSet(s, id, code).underpassLightsState == s.underpassLightsState
    ensures LampSet(LampSet(s, id, code), id, code) == LampSet(s, id, code)
  {
  }
}
