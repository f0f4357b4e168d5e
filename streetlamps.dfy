/**
 * The streetlamp controller: every 100 ms tick it drives each lamp pin from the
 * master enable, that lamp's mode and, for flickering lamps, one random draw.
 */
module Streetlamps {
  import opened Prelude

  /** Number of lamp modes in the shared state. */
  const NumLamps: nat := 6

  datatype StreetlampMode = Off | On | Flickering(chance: u32)

  /** The shared state's fixed-size array of lamp modes. */
  type LampModes = s: seq<StreetlampMode> | |s| == NumLamps
    witness [Off, Off, Off, Off, Off, Off]

  /** The mode a lamp is driven by: its own when lamps are enabled, Off otherwise. */
  function EffectiveMode(enabled: bool, mode: StreetlampMode): StreetlampMode {
    if enabled then mode else Off
  }

  /** Only a flickering lamp takes a value from the random source. */
  predicate DrawsRandom(mode: StreetlampMode) {
    mode.Flickering?
  }

  /** The level a lamp in `mode` is driven to (true = high); `draw` matters only when flickering. */
  function LampLevel(mode: StreetlampMode, draw: u32): bool {
    match mode
    case Off => false
    case On => true
    case Flickering(chance) => draw % 100 < chance
  }

  /** How many random values the lamps with index below `i` consume in one tick. */
  function DrawsBefore(enabled: bool, modes: seq<StreetlampMode>, i: nat): (n: nat)
    requires i <= |modes|
    ensures n <= i
    ensures !enabled ==> n == 0
    ensures n == 0 <==> forall j :: 0 <= j < i ==> !DrawsRandom(EffectiveMode(enabled, modes[j]))
  {
    if i == 0 then 0
    else
      DrawsBefore(enabled, modes, i - 1)
      + (if DrawsRandom(EffectiveMode(enabled, modes[i - 1])) then 1 else 0)
  }

  /**
   * The levels one tick writes to pins 0 .. count-1 when the random source's
   * next unused value is `rng(cursor)`: lamp i, if flickering, takes the value
   * after those its flickering predecessors took.
   */
  function TickLevels(enabled: bool, modes: seq<StreetlampMode>, count: nat, rng: nat -> u32, cursor: nat): (levels: seq<bool>)
    requires count <= |modes|
  {
    seq(count, i requires 0 <= i < count => TickLevel(enabled, modes, rng, cursor, i))
  }

  /** Lamp i's level in a tick: its effective mode, with the value after those its flickering predecessors took. */
  function TickLevel(enabled: bool, modes: seq<StreetlampMode>, rng: nat -> u32, cursor: nat, i: nat): bool
    requires i < |modes|
  {
    LampLevel(EffectiveMode(enabled, modes[i]), rng(cursor + DrawsBefore(enabled, modes, i)))
  }

  /** With lamps disabled every pin is low and the tick takes no random value. */
  lemma DisabledAllLow(modes: seq<StreetlampMode>, count: nat, rng: nat -> u32, cursor: nat)
    requires count <= |modes|
    ensures forall i :: 0 <= i < count ==> !TickLevels(false, modes, count, rng, cursor)[i]
    ensures DrawsBefore(false, modes, count) == 0
  {
    forall i | 0 <= i < count
      ensures !TickLevels(false, modes, count, rng, cursor)[i]
    {
      assert EffectiveMode(false, modes[i]) == Off;
    }
  }

  /** When enabled, Off drives low, On drives high, and Flickering is high iff draw mod 100 < chance. */
  lemma EnabledLevels(mode: StreetlampMode, draw: u32)
    ensures EffectiveMode(true, mode) == mode
    ensures mode.Off? ==> !LampLevel(mode, draw)
    ensures mode.On? ==> LampLevel(mode, draw)
    ensures mode.Flickering? ==> (LampLevel(mode, draw) <==> draw % 100 < mode.chance)
  {
  }

  /** A chance of 0 is always low and a chance of 100 or more is always high. */
  lemma FlickerExtremes(chance: u32, draw: u32)
    ensures chance == 0 ==> !LampLevel(Flickering(chance), draw)
    ensures chance >= 100 ==> LampLevel(Flickering(chance), draw)
  {
  }

  /**
   * Draws are taken in lamp-index order, one per flickering lamp: a flickering
   * lamp i takes a value strictly before any later lamp j does.
   */
  lemma {:induction false} DrawsInLampOrder(enabled: bool, modes: seq<StreetlampMode>, i: nat, j: nat)
    requires i < j <= |modes|
    requires DrawsRandom(EffectiveMode(enabled, modes[i]))
    ensures DrawsBefore(enabled, modes, i) < DrawsBefore(enabled, modes, j)
  {
    if j == i + 1 {
    } else {
      DrawsInLampOrder(enabled, modes, i, j - 1);
    }
  }

  /** The lamp runner: its pins and the random source, read as a stream with a cursor. */
  class StreetlampsRunner {
    const lampPins: array<bool>
    /** The random source: `rng(k)` is the k-th value `next_u32` returns. */
    const rng: nat -> u32
    /** How many values have been taken from the random source so far. */
    var drawn: nat

    constructor (lampPins: array<bool>, rng: nat -> u32)
      ensures this.lampPins == lampPins && this.rng == rng && drawn == 0
    {
      this.lampPins := lampPins;
      this.rng := rng;
      drawn := 0;
    }

    /** Drives pin i from `mode`, taking one random value when the mode is Flickering. */
    method DriveLamp(i: nat, mode: StreetlampMode)
      requires i < lampPins.Length
      modifies this`drawn, lampPins
      ensures lampPins[i] == LampLevel(mode, rng(old(drawn)))
      ensures forall j :: 0 <= j < lampPins.Length && j != i ==> lampPins[j] == old(lampPins[j])
      ensures drawn == old(drawn) + (if DrawsRandom(mode) then 1 else 0)
    {
      match mode
      case Off =>
        lampPins[i] := false;
      case On =>
        lampPins[i] := true;
      case Flickering(chance) =>
        var draw := rng(drawn);
        drawn := drawn + 1;
        if draw % 100 < chance {
          lampPins[i] := true;
        } else {
          lampPins[i] := false;
        }
    }

    /**
     * One tick of the lamp loop. Indexing the modes with every pin index needs
     * at most as many pins as modes.
     */
    method Tick(enabled: bool, modes: LampModes)
      requires lampPins.Length <= NumLamps
      modifies this`drawn, lampPins
      ensures lampPins[..] == TickLevels(enabled, modes, lampPins.Length, rng, old(drawn))
      ensures drawn == old(drawn) + DrawsBefore(enabled, modes, lampPins.Length)
    {
      ghost var levels := TickLevels(enabled, modes, lampPins.Length, rng, drawn);
      for i := 0 to lampPins.Length
        invariant drawn == old(drawn) + DrawsBefore(enabled, modes, i)
        invariant forall j :: 0 <= j < i ==> lampPins[j] == levels[j]
      {
        ghost var cursor := drawn;
        assert levels[i] == TickLevel(enabled, modes, rng, old(drawn), i);
        assert levels[i] == LampLevel(EffectiveMode(enabled, modes[i]), rng(cursor));
        DriveLamp(i, EffectiveMode(enabled, modes[i]));
        assert lampPins[i] == levels[i];
      }
      assert lampPins[..] == levels;
    }
  }
}
