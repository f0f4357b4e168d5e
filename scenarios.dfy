/**
 * Whole-controller scenarios: the compiled-in default configuration, runs of
 * many underpass ticks, and two end-to-end cases.
 */
module Scenarios {
  import opened Prelude
  import opened Rgb
  import S = Streetlamps
  import U = UnderpassLights
  import opened State

  /**
   * The configuration the controller starts with (src/main.rs): lamps enabled
   * and all on, so no lamp flickers, and the underpass in Cars mode.
   */
  function Defaults(): (s: SharedState)
    ensures s.streetlampsEnabled && s.underpassLightsState.Cars?
    ensures S.DrawsBefore(s.streetlampsEnabled, s.streetlampsModes, S.NumLamps) == 0
  {
    SharedState(true, 255, [S.On, S.On, S.On, S.On, S.On, S.On], U.Cars(Rgb8(40, 20, 2)))
  }

  /** The underpass controller after the ticks of `modes`, the t-th tick drawing `draws[t]`. */
  function Run(s: U.Controller, modes: seq<U.LightingState>, draws: seq<u32>): U.Controller
    requires |modes| == |draws|
    decreases |modes|
  {
    if modes == [] then s
    else
      var n := |modes| - 1;
      U.Step(Run(s, modes[..n], draws[..n]), modes[n], draws[n])
  }

  /** Every run keeps the controller invariant, so cars stay well formed and in i32 range. */
  lemma {:induction false} RunKeepsInv(s: U.Controller, modes: seq<U.LightingState>, draws: seq<u32>)
    requires |modes| == |draws| && U.Inv(s)
    ensures U.Inv(Run(s, modes, draws))
  {
    if modes != [] {
      var n := |modes| - 1;
      RunKeepsInv(s, modes[..n], draws[..n]);
      U.StepPreservesInv(Run(s, modes[..n], draws[..n]), modes[n], draws[n]);
    }
  }

  /** One more wrapping step of a counter taken modulo 65536. */
  lemma CounterStep(x: nat)
    ensures (x % 0x1_0000 + 1) % 0x1_0000 == (x + 1) % 0x1_0000
  {
  }

  /** After n ticks the counter has moved n steps, modulo 65536. */
  lemma {:induction false} RunCycle(s: U.Controller, modes: seq<U.LightingState>, draws: seq<u32>)
    requires |modes| == |draws|
    ensures Run(s, modes, draws).cycle == (s.cycle + |modes|) % 0x1_0000
  {
    if modes != [] {
      var n := |modes| - 1;
      RunCycle(s, modes[..n], draws[..n]);
      var prev := Run(s, modes[..n], draws[..n]);
      assert Run(s, modes, draws).cycle == WrappingAddU16(prev.cycle, 1);
      CounterStep(s.cycle + n);
    }
  }

  /**
   * From the start state no car exists during the first ten ticks, whatever
   * the modes: the first spawn tick is the one whose counter is 10.
   */
  lemma {:induction false} NoCarBeforeFirstSpawnTick(modes: seq<U.LightingState>, draws: seq<u32>)
    requires |modes| == |draws| <= 10
    ensures Run(U.Initial(), modes, draws).cycle == |modes|
    ensures |Run(U.Initial(), modes, draws).cars| == U.MaxCars
    ensures forall k :: 0 <= k < U.MaxCars ==> Run(U.Initial(), modes, draws).cars[k].None?
  {
    if modes != [] {
      var n := |modes| - 1;
      NoCarBeforeFirstSpawnTick(modes[..n], draws[..n]);
      var s := Run(U.Initial(), modes[..n], draws[..n]);
      assert Run(U.Initial(), modes, draws) == U.Step(s, modes[n], draws[n]);
      U.EmptyStaysEmpty(s.cars, s.cycle, draws[n]);
    }
  }

  /** Scenario: with the defaults every lamp is lit on the tick and no random value is used. */
  method DefaultsLightEveryLamp(rng: nat -> u32) returns (levels: seq<bool>, drawn: nat)
    ensures levels == [true, true, true, true, true, true]
    ensures drawn == 0
  {
    var pins := new bool[S.NumLamps];
    var runner := new S.StreetlampsRunner(pins, rng);
    runner.Tick(Defaults().streetlampsEnabled, Defaults().streetlampsModes);
    levels := pins[..];
    drawn := runner.drawn;
  }

  /**
   * Scenario: a fresh underpass runner in Cars mode has no car for ten ticks,
   * and the eleventh tick (counter 10) spawns one car into slot 0.
   */
  method CarsModeFirstSpawn(draws: seq<u32>) returns (before: seq<Option<U.Car>>, after: seq<Option<U.Car>>)
    requires |draws| == 11
    ensures |before| == U.MaxCars && forall k :: 0 <= k < |before| ==> before[k].None?
    ensures |after| == U.MaxCars && after[0] == Some(U.NewCar(draws[10]))
    ensures forall k :: 1 <= k < |after| ==> after[k].None?
  {
    var runner := new U.UnderpassLightsRunner();
    var mode := Defaults().underpassLightsState;
    var t := 0;
    while t < 10
      invariant 0 <= t <= 10
      invariant fresh(runner) && fresh(runner.data) && fresh(runner.cars)
      invariant runner.Valid()
      invariant runner.cycle == t
      invariant forall k :: 0 <= k < runner.cars.Length ==> runner.cars[k].None?
    {
      U.EmptyStaysEmpty(runner.cars[..], runner.cycle, draws[t]);
      var frame, drew := runner.Tick(mode, draws[t]);
      t := t + 1;
    }
    before := runner.cars[..];
    U.SpawnIntoEmpty(before, runner.cycle, draws[10]);
    var frame, drew := runner.Tick(mode, draws[10]);
    after := runner.cars[..];
  }
}
