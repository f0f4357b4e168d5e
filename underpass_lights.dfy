/**
 * The underpass LED controller: every 10 ms tick it renders one frame for a
 * strip of 16 LEDs (two lanes of 8) from the lighting state, running a small
 * car simulation in Cars mode.
 */
module UnderpassLights {
  import opened Prelude
  import opened Rgb

  const NumLedsPerLane: nat := 8
  const NumLanes: nat := 2
  const NumLeds: nat := NumLanes * NumLedsPerLane
  /** Track position of each LED of a lane (both lanes share them). */
  const LedPositions: seq<int> := [2000, 7500, 11500, 17000, 21300, 26800, 30800, 36300]
  const MaxCars: nat := 10
  /** Half-width of the window in which a car lights an LED. */
  const MaxCarDistance: int := 30000

  /** A car is removed once its position is past the last LED by more than MaxCarDistance. */
  const DespawnPosition: int := 36300 + MaxCarDistance
  /** Cars are spawned on the ticks whose counter is SpawnPhase modulo SpawnPeriod. */
  const SpawnPeriod: nat := 500
  const SpawnPhase: nat := 10
  /** Every spawned car moves this many position units per tick. */
  const SpawnSpeed: int := 434

  datatype LightingState =
    | Off
    | SingleColour(colour: Rgb8)
    | RainbowCycle
    | Cars(defaultColor: Rgb8)

  datatype Car = Car(position: int, speed: int, lane: u8)

  // ---------------------------------------------------------------------------
  // Hue wheel

  /** The hue wheel: position 0..255 to a colour, fading red - green - blue - red. */
  function Wheel(wheelPos: u8): (c: Rgb8)
    ensures c.r + c.g + c.b == 255
    ensures c.r == 0 || c.g == 0 || c.b == 0
  {
    var p := 255 - wheelPos;
    if p < 85 then Rgb8(255 - p * 3, 0, p * 3)
    else if p < 170 then Rgb8(0, (p - 85) * 3, 255 - (p - 85) * 3)
    else Rgb8((p - 170) * 3, 255 - (p - 170) * 3, 0)
  }

  /** The wheel meets itself at the seam: both ends are pure red. */
  lemma WheelSeam()
    ensures Wheel(0) == Wheel(255) == Rgb8(255, 0, 0)
  {
  }

  /** Which 85-wide band of the (inverted) wheel position a hue lies in. */
  function WheelBand(wheelPos: u8): nat {
    var p := 255 - wheelPos;
    if p < 85 then 0 else if p < 170 then 1 else 2
  }

  /**
   * Within one band the two lit channels move in opposite directions, one
   * channel stays dark, and they step by 3 per wheel position.
   */
  lemma WheelBandRamps(x: u8, y: u8)
    requires x <= y && WheelBand(x) == WheelBand(y)
    ensures WheelBand(x) == 0 ==>
      Wheel(x).g == Wheel(y).g == 0 && Wheel(y).r - Wheel(x).r == 3 * (y - x) && Wheel(x).b - Wheel(y).b == 3 * (y - x)
    ensures WheelBand(x) == 1 ==>
      Wheel(x).r == Wheel(y).r == 0 && Wheel(y).b - Wheel(x).b == 3 * (y - x) && Wheel(x).g - Wheel(y).g == 3 * (y - x)
    ensures WheelBand(x) == 2 ==>
      Wheel(x).b == Wheel(y).b == 0 && Wheel(y).g - Wheel(x).g == 3 * (y - x) && Wheel(x).r - Wheel(y).r == 3 * (y - x)
  {
  }

  // ---------------------------------------------------------------------------
  // Rainbow mode

  /** The wheel position of LED i: `((i * 256) as u16 / 16).wrapping_add(cycle) & 255`. */
  function RainbowIndex(i: nat, cycle: u16): u8
    requires i < NumLeds
  {
    var scaled := ((i * 256) % 0x1_0000) / NumLeds;
    WrappingAddU16(scaled, cycle) % 0x100
  }

  /** LED i shows hue 16*i + cycle, modulo 256. */
  lemma RainbowIndexIsOffset(i: nat, cycle: u16)
    requires i < NumLeds
    ensures RainbowIndex(i, cycle) == (16 * i + cycle) % 256
  {
    assert (i * 256) % 0x1_0000 / NumLeds == 16 * i;
    var x := 16 * i + cycle;
    assert x == (x / 0x1_0000) * 0x1_0000 + x % 0x1_0000;
    assert (x / 0x1_0000) * 0x1_0000 == ((x / 0x1_0000) * 0x100) * 0x100;
  }

  function RainbowFrame(cycle: u16): (frame: seq<Rgb8>)
    ensures |frame| == NumLeds
  {
    seq(NumLeds, i requires 0 <= i < NumLeds => Wheel(RainbowIndex(i, cycle)))
  }

  // ---------------------------------------------------------------------------
  // Light of one car on one LED

  /** Headlight / taillight intensity at distance `dist`: 80 at the car, fading to 0 at MaxCarDistance. */
  function Power(dist: int): (p: u8)
    requires 0 <= dist
    ensures p <= 80
    ensures dist >= MaxCarDistance ==> p == 0
    ensures p == 80 <==> dist == 0
  {
    AsU8(Max(DivTrunc(80 * (MaxCarDistance - dist), MaxCarDistance), 0))
  }

  /** The dimmer spill light, fading four times as fast: 0 from MaxCarDistance / 4 on. */
  function FalloffPower(dist: int): (f: u8)
    requires 0 <= dist
    ensures f <= Power(dist)
    ensures 4 * dist >= MaxCarDistance ==> f == 0
  {
    AsU8(Max(DivTrunc(80 * Max(MaxCarDistance - dist * 4, 0), MaxCarDistance), 0))
  }

  /** Power never grows as the car gets further away. */
  lemma PowerNonIncreasing(d1: int, d2: int)
    requires 0 <= d1 <= d2
    ensures Power(d2) <= Power(d1)
    ensures FalloffPower(d2) <= FalloffPower(d1)
  {
  }

  /** Whether a car at `position` is inside the window of the LED at `ledPos`. */
  predicate InWindow(position: int, ledPos: int) {
    position > ledPos - MaxCarDistance && position < ledPos + MaxCarDistance
  }

  /** The divisor applied to the white light; both branches of the Rust code choose 1. */
  function LightDivisor(position: int, ledPos: int): (d: u8)
    ensures d == 1
  {
    if position < ledPos then 1 else 1
  }

  /**
   * The light accumulator of the LED at `ledPos` after a car at `position` has
   * added to it: past the LED, falloff white and full red; before it, full
   * white and falloff red. Out of the window nothing is added.
   */
  function Accumulate(acc: Rgb8, position: int, ledPos: int): Rgb8 {
    if InWindow(position, ledPos) then
      var dist := Abs(position - ledPos);
      var div := LightDivisor(position, ledPos);
      var power := Power(dist);
      var falloff := FalloffPower(dist);
      if position > ledPos then
        Add(Add(acc, DivScalar(Rgb8(falloff, falloff, falloff / 3), div)), Rgb8(power, 0, 0))
      else
        Add(Add(acc, DivScalar(Rgb8(power, power, power / 3), div)), Rgb8(falloff, 0, 0))
    else
      acc
  }

  /**
   * One car's light on one LED is bounded per channel (red 160, green 80,
   * blue 26) and is added exactly, without wrap-around, to an empty accumulator:
   * red is the sum of both intensities, green and blue the white part's.
   */
  lemma SingleCarLightBounds(position: int, ledPos: int)
    ensures var c := Accumulate(Black, position, ledPos);
      c.r <= 160 && c.g <= 80 && c.b <= 26
    ensures InWindow(position, ledPos) && position > ledPos ==>
      var d := Abs(position - ledPos);
      Accumulate(Black, position, ledPos) == Rgb8(FalloffPower(d) + Power(d), FalloffPower(d), FalloffPower(d) / 3)
    ensures InWindow(position, ledPos) && position <= ledPos ==>
      var d := Abs(position - ledPos);
      Accumulate(Black, position, ledPos) == Rgb8(Power(d) + FalloffPower(d), Power(d), Power(d) / 3)
    ensures !InWindow(position, ledPos) ==> Accumulate(Black, position, ledPos) == Black
    ensures position == ledPos ==> Accumulate(Black, position, ledPos) == Rgb8(160, 80, 26)
  {
    if InWindow(position, ledPos) {
      var d := Abs(position - ledPos);
      assert FalloffPower(d) <= Power(d) <= 80;
    }
  }

  // ---------------------------------------------------------------------------
  // Cars mode

  /** A car as the simulation keeps it: spawn speed, on the track, in lane 0 or 1. */
  predicate WellFormedCar(c: Car) {
    c.speed == SpawnSpeed && -MaxCarDistance <= c.position <= DespawnPosition && c.lane < NumLanes as int
  }

  /** One slot's advance and despawn step. */
  function StepSlot(slot: Option<Car>): Option<Car> {
    match slot
    case None => None
    case Some(car) =>
      var moved := car.(position := car.position + car.speed);
      if moved.position > DespawnPosition then None else Some(moved)
  }

  /**
   * The car light on lane LED i after the slots of `cars` have been processed in
   * order, each occupied slot adding its advanced car's light.
   */
  function CarLight(cars: seq<Option<Car>>, i: nat): Rgb8
    requires i < NumLedsPerLane
    decreases |cars|
  {
    if cars == [] then Black
    else
      var acc := CarLight(cars[..|cars| - 1], i);
      match cars[|cars| - 1]
      case None => acc
      case Some(car) => Accumulate(acc, car.position + car.speed, LedPositions[i])
  }

  /** The last slot of `cars`, if occupied, adds its advanced car's light last. */
  lemma CarLightOfLast(cars: seq<Option<Car>>, i: nat)
    requires |cars| > 0 && i < NumLedsPerLane
    ensures var last := cars[|cars| - 1];
      CarLight(cars, i) ==
        if last.None? then CarLight(cars[..|cars| - 1], i)
        else Accumulate(CarLight(cars[..|cars| - 1], i), last.value.position + last.value.speed, LedPositions[i])
  {
  }

  /** The light buffer after all cars: only the first lane's eight LEDs get car light. */
  function CarLightFrame(cars: seq<Option<Car>>): (light: seq<Rgb8>)
    ensures |light| == NumLeds
  {
    seq(NumLeds, i requires 0 <= i < NumLeds => if i < NumLedsPerLane then CarLight(cars, i) else Black)
  }

  /** The frame of one Cars tick: the default colour plus the car light. */
  function CarsFrame(defaultColor: Rgb8, cars: seq<Option<Car>>): (frame: seq<Rgb8>)
    ensures |frame| == NumLeds
  {
    var light := CarLightFrame(cars);
    seq(NumLeds, i requires 0 <= i < NumLeds => Add(defaultColor, light[i]))
  }

  /** Index of the lowest empty slot, or |slots| when every slot is occupied. */
  function FirstFree(slots: seq<Option<Car>>): (f: nat)
    ensures f <= |slots|
    ensures forall j :: 0 <= j < f ==> slots[j].Some?
    ensures f < |slots| ==> slots[f].None?
  {
    if slots == [] then 0
    else if slots[0].None? then 0
    else 1 + FirstFree(slots[1..])
  }

  /** A freshly spawned car: one window before the first LED, at spawn speed, in lane draw mod 2. */
  function NewCar(draw: u32): Car {
    Car(-MaxCarDistance, SpawnSpeed, draw % NumLanes)
  }

  /** The slots after a spawn attempt: the lowest empty slot gets a new car, if there is one. */
  function Spawned(slots: seq<Option<Car>>, draw: u32): (r: seq<Option<Car>>)
    ensures |r| == |slots|
  {
    var f := FirstFree(slots);
    if f < |slots| then slots[f := Some(NewCar(draw))] else slots
  }

  predicate IsSpawnTick(cycle: u16) {
    cycle % SpawnPeriod == SpawnPhase
  }

  /** Every slot advanced and, past the last LED's window, cleared. */
  function Stepped(cars: seq<Option<Car>>): (r: seq<Option<Car>>)
    ensures |r| == |cars|
    ensures forall k :: 0 <= k < |r| ==> r[k] == StepSlot(cars[k])
  {
    seq(|cars|, k requires 0 <= k < |cars| => StepSlot(cars[k]))
  }

  /** The slots after one Cars tick: every slot stepped, then a spawn attempt on a spawn tick. */
  function NextCars(cars: seq<Option<Car>>, cycle: u16, draw: u32): (r: seq<Option<Car>>)
    ensures |r| == |cars|
  {
    if IsSpawnTick(cycle) then Spawned(Stepped(cars), draw) else Stepped(cars)
  }

  /** Whether a Cars tick takes a value from the random source (only when a spawn fills a slot). */
  predicate SpawnDraws(cars: seq<Option<Car>>, cycle: u16) {
    IsSpawnTick(cycle) && FirstFree(Stepped(cars)) < |cars|
  }

  /**
   * Advance, despawn and spawn: every occupied slot moves by exactly its speed
   * and is cleared iff it ends past DespawnPosition; on a spawn tick the lowest
   * slot that is then empty receives NewCar(draw), and with no empty slot nothing
   * is added; on other ticks nothing is spawned.
   */
  lemma NextCarsSlots(cars: seq<Option<Car>>, cycle: u16, draw: u32)
    ensures var r := NextCars(cars, cycle, draw);
      var f := FirstFree(Stepped(cars));
      forall k :: 0 <= k < |cars| ==>
        if IsSpawnTick(cycle) && k == f then
          r[k] == Some(NewCar(draw)) && StepSlot(cars[k]).None?
        else
          && (cars[k].None? ==> r[k].None?)
          && (cars[k].Some? ==>
                var moved := cars[k].value.position + cars[k].value.speed;
                && (r[k].None? <==> moved > DespawnPosition)
                && (r[k].Some? ==> r[k].value == cars[k].value.(position := moved)))
  {
  }

  /** Outside a spawn tick, empty slots stay empty. */
  lemma EmptyStaysEmpty(cars: seq<Option<Car>>, cycle: u16, draw: u32)
    requires !IsSpawnTick(cycle)
    requires forall k :: 0 <= k < |cars| ==> cars[k].None?
    ensures var r := NextCars(cars, cycle, draw);
      forall k :: 0 <= k < |r| ==> r[k].None?
  {
  }

  /** On a spawn tick with every slot empty, the new car goes to slot 0 and nowhere else. */
  lemma SpawnIntoEmpty(cars: seq<Option<Car>>, cycle: u16, draw: u32)
    requires IsSpawnTick(cycle) && |cars| > 0
    requires forall k :: 0 <= k < |cars| ==> cars[k].None?
    ensures var r := NextCars(cars, cycle, draw);
      r[0] == Some(NewCar(draw)) && forall k :: 1 <= k < |r| ==> r[k].None?
  {
    assert Stepped(cars)[0].None?;
  }

  /** A spawned car is well formed, lane in {0, 1}. */
  lemma NewCarWellFormed(draw: u32)
    ensures WellFormedCar(NewCar(draw))
    ensures NewCar(draw).lane == 0 || NewCar(draw).lane == 1
  {
  }

  /** The tick counter `n` ticks after `cycle`, wrapping at 65536. */
  function CycleAfter(cycle: u16, n: nat): u16 {
    (cycle + n) % 0x1_0000
  }

  /** Because the counter wraps at 65536, the spawn ticks 65510 and 10 are only 36 ticks apart. */
  lemma SpawnTicksAtWrap()
    ensures IsSpawnTick(65510) && CycleAfter(65510, 36) == 10 && IsSpawnTick(10)
    ensures forall n :: 0 < n < 36 ==> !IsSpawnTick(CycleAfter(65510, n))
  {
  }

  // ---------------------------------------------------------------------------
  // The controller as a value, and one tick of it

  datatype Controller = Controller(
    data: seq<Rgb8>,
    cars: seq<Option<Car>>,
    cycle: u16,
    lastState: LightingState,
    dirty: bool)

  function Filled(c: Rgb8): (frame: seq<Rgb8>)
    ensures |frame| == NumLeds
    ensures forall i :: 0 <= i < NumLeds ==> frame[i] == c
  {
    seq(NumLeds, _ => c)
  }

  /** The controller at the start of `run`: dark frame, no cars, counter 0, last mode Off. */
  function Initial(): (s: Controller)
    ensures s.data == Filled(Black) && s.cycle == 0 && s.lastState == Off && s.dirty
    ensures |s.cars| == MaxCars && forall k :: 0 <= k < MaxCars ==> s.cars[k].None?
  {
    Controller(Filled(Black), seq(MaxCars, _ => None), 0, Off, true)
  }

  /** The frame of a static mode shows that mode: all dark for Off, all `c` for SingleColour(c). */
  predicate StaticFrame(lastState: LightingState, data: seq<Rgb8>) {
    && (lastState.Off? ==> forall i :: 0 <= i < |data| ==> data[i] == Black)
    && (lastState.SingleColour? ==> forall i :: 0 <= i < |data| ==> data[i] == lastState.colour)
  }

  /** What every tick keeps: sizes, well-formed cars, the static frame, and a frame always sent. */
  predicate Inv(s: Controller) {
    && |s.data| == NumLeds
    && |s.cars| == MaxCars
    && (forall k :: 0 <= k < |s.cars| && s.cars[k].Some? ==> WellFormedCar(s.cars[k].value))
    && StaticFrame(s.lastState, s.data)
    && s.dirty
  }

  /** One tick of the loop in `run`. */
  function Step(s: Controller, mode: LightingState, draw: u32): Controller {
    var data :=
      match mode
      case Off => if s.lastState != mode then Filled(Black) else s.data
      case SingleColour(c) => if s.lastState != mode then Filled(c) else s.data
      case RainbowCycle => RainbowFrame(s.cycle)
      case Cars(defaultColor) => CarsFrame(defaultColor, s.cars);
    var cars := if mode.Cars? then NextCars(s.cars, s.cycle, draw) else s.cars;
    var dirty := if mode.RainbowCycle? || mode.Cars? || s.lastState != mode then true else s.dirty;
    Controller(data, cars, WrappingAddU16(s.cycle, 1), mode, dirty)
  }

  lemma InitialInv()
    ensures Inv(Initial())
  {
  }

  /** Every tick keeps the invariant; in particular a car's position stays within i32. */
  lemma StepPreservesInv(s: Controller, mode: LightingState, draw: u32)
    requires Inv(s)
    ensures Inv(Step(s, mode, draw))
    ensures forall k :: 0 <= k < |s.cars| && s.cars[k].Some? ==> InI32(s.cars[k].value.position + s.cars[k].value.speed)
  {
    if mode.Cars? {
      NextCarsWellFormed(s.cars, s.cycle, draw);
    }
  }

  /** Advancing, despawning and spawning keep every car well formed. */
  lemma NextCarsWellFormed(cars: seq<Option<Car>>, cycle: u16, draw: u32)
    requires forall k :: 0 <= k < |cars| && cars[k].Some? ==> WellFormedCar(cars[k].value)
    ensures var r := NextCars(cars, cycle, draw);
      forall k :: 0 <= k < |r| && r[k].Some? ==> WellFormedCar(r[k].value)
  {
    var stepped := Stepped(cars);
    assert forall k :: 0 <= k < |stepped| && stepped[k].Some? ==> WellFormedCar(stepped[k].value);
    NewCarWellFormed(draw);
  }

  /**
   * Every tick records the mode, steps the counter modulo 65536, and marks the
   * frame to be sent; ticks outside Cars mode leave the cars alone.
   */
  lemma StepBookkeeping(s: Controller, mode: LightingState, draw: u32)
    requires Inv(s)
    ensures Step(s, mode, draw).lastState == mode
    ensures Step(s, mode, draw).cycle == (s.cycle + 1) % 65536
    ensures Step(s, mode, draw).dirty
    ensures !mode.Cars? ==> Step(s, mode, draw).cars == s.cars
    ensures mode.RainbowCycle? ==> Step(s, mode, draw).data == RainbowFrame(s.cycle)
  {
  }

  /** A static mode that was already shown leaves the frame as it was, and that frame is the mode's. */
  lemma StaticModeRepeats(s: Controller, mode: LightingState, draw: u32)
    requires Inv(s)
    requires mode.Off? || mode.SingleColour?
    requires s.lastState == mode
    ensures Step(s, mode, draw).data == s.data
    ensures forall i :: 0 <= i < NumLeds ==> s.data[i] == (if mode.Off? then Black else mode.colour)
  {
  }

  /** After an Off tick every LED is dark, and after SingleColour(c) every LED is c. */
  lemma StaticModeFrame(s: Controller, mode: LightingState, draw: u32)
    requires Inv(s)
    requires mode.Off? || mode.SingleColour?
    ensures forall i :: 0 <= i < NumLeds ==>
      Step(s, mode, draw).data[i] == (if mode.Off? then Black else mode.colour)
  {
  }

  /** In RainbowCycle, LED i shows Wheel((16 * i + cycle) mod 256). */
  lemma RainbowFrameHues(cycle: u16, i: nat)
    requires i < NumLeds
    ensures RainbowFrame(cycle)[i] == Wheel(((16 * i + cycle) % 256) as u8)
  {
    RainbowIndexIsOffset(i, cycle);
  }

  /** In Cars mode the second lane's LEDs get no car light: they show the default colour. */
  lemma SecondLaneUnlit(defaultColor: Rgb8, cars: seq<Option<Car>>, i: nat)
    requires NumLedsPerLane <= i < NumLeds
    ensures CarsFrame(defaultColor, cars)[i] == defaultColor
  {
  }

  /** Two slots that hold the same cars up to their lane. */
  predicate SameButLane(a: Option<Car>, b: Option<Car>) {
    a.None? == b.None? && (a.Some? ==> a.value.position == b.value.position && a.value.speed == b.value.speed)
  }

  /** The car light does not depend on the lanes the cars were given. */
  lemma {:induction false} CarLightIgnoresLane(a: seq<Option<Car>>, b: seq<Option<Car>>, i: nat)
    requires |a| == |b| && i < NumLedsPerLane
    requires forall k :: 0 <= k < |a| ==> SameButLane(a[k], b[k])
    ensures CarLight(a, i) == CarLight(b, i)
  {
    if a != [] {
      var n := |a| - 1;
      assert forall k :: 0 <= k < n ==> a[..n][k] == a[k] && b[..n][k] == b[k];
      CarLightIgnoresLane(a[..n], b[..n], i);
    }
  }

  /** Hence the Cars frame does not depend on the lanes either. */
  lemma CarsFrameIgnoresLane(defaultColor: Rgb8, a: seq<Option<Car>>, b: seq<Option<Car>>)
    requires |a| == |b|
    requires forall k :: 0 <= k < |a| ==> SameButLane(a[k], b[k])
    ensures CarsFrame(defaultColor, a) == CarsFrame(defaultColor, b)
  {
    forall i | 0 <= i < NumLedsPerLane
      ensures CarLight(a, i) == CarLight(b, i)
    {
      CarLightIgnoresLane(a, b, i);
    }
    assert CarLightFrame(a) == CarLightFrame(b);
  }

  // ---------------------------------------------------------------------------
  // The runner: the state `run` keeps across ticks

  class UnderpassLightsRunner {
    /** The frame handed to the LED strip driver. */
    var data: array<Rgb8>
    var cars: array<Option<Car>>
    var cycle: u16
    var lastState: LightingState
    var dirty: bool

    ghost function Snapshot(): Controller
      reads this, data, cars
    {
      Controller(data[..], cars[..], cycle, lastState, dirty)
    }

    ghost predicate Valid()
      reads this, data, cars
    {
      data.Length == NumLeds && cars.Length == MaxCars && Inv(Snapshot())
    }

    constructor ()
      ensures Valid() && fresh(data) && fresh(cars)
      ensures Snapshot() == Initial()
    {
      data := new Rgb8[NumLeds](_ => Black);
      cars := new Option<Car>[MaxCars](_ => None);
      cycle := 0;
      lastState := Off;
      dirty := true;
      new;
      assert data[..] == Filled(Black);
      assert cars[..] == seq(MaxCars, _ => None);
    }

    /** Sets every LED to `c`. */
    method Fill(c: Rgb8)
      requires data.Length == NumLeds
      modifies data
      ensures data[..] == Filled(c)
    {
      for i := 0 to data.Length
        invariant forall j :: 0 <= j < i ==> data[j] == c
      {
        data[i] := c;
      }
      assert data[..] == Filled(c);
    }

    /** Paints the rainbow for the current counter. */
    method RenderRainbow()
      requires data.Length == NumLeds
      modifies data
      ensures data[..] == RainbowFrame(cycle)
    {
      for i := 0 to data.Length
        invariant forall j :: 0 <= j < i ==> data[j] == Wheel(RainbowIndex(j, cycle))
      {
        data[i] := Wheel(RainbowIndex(i, cycle));
      }
      assert data[..] == RainbowFrame(cycle);
    }

    /** Adds the light of a car at `position` to the accumulator of lane LED i. */
    static method LightLed(carLight: array<Rgb8>, i: nat, position: int)
      requires carLight.Length == NumLeds && i < NumLedsPerLane
      modifies carLight
      ensures carLight[i] == Accumulate(old(carLight[i]), position, LedPositions[i])
      ensures forall j :: 0 <= j < NumLeds && j != i ==> carLight[j] == old(carLight[j])
    {
      var ledPos := LedPositions[i];
      if InWindow(position, ledPos) {
        var dist := Abs(position - ledPos);
        var div := LightDivisor(position, ledPos);
        var power := Power(dist);
        var falloff := FalloffPower(dist);
        if position > ledPos {
          carLight[i] := Add(carLight[i], DivScalar(Rgb8(falloff, falloff, falloff / 3), div));
          carLight[i] := Add(carLight[i], Rgb8(power, 0, 0));
        } else {
          carLight[i] := Add(carLight[i], DivScalar(Rgb8(power, power, power / 3), div));
          carLight[i] := Add(carLight[i], Rgb8(falloff, 0, 0));
        }
      }
    }

    /** Adds the light of the last car of `prefix`, now at `position`, to the first lane's LEDs. */
    static method AddCarLight(carLight: array<Rgb8>, position: int, ghost prefix: seq<Option<Car>>)
      requires carLight.Length == NumLeds
      requires |prefix| > 0 && prefix[|prefix| - 1].Some?
      requires position == prefix[|prefix| - 1].value.position + prefix[|prefix| - 1].value.speed
      requires forall i :: 0 <= i < NumLedsPerLane ==> carLight[i] == CarLight(prefix[..|prefix| - 1], i)
      modifies carLight
      ensures forall i :: 0 <= i < NumLedsPerLane ==> carLight[i] == CarLight(prefix, i)
      ensures forall i :: NumLedsPerLane <= i < NumLeds ==> carLight[i] == old(carLight[i])
    {
      for i := 0 to NumLedsPerLane
        invariant forall j :: 0 <= j < i ==> carLight[j] == CarLight(prefix, j)
        invariant forall j :: i <= j < NumLeds ==> carLight[j] == old(carLight[j])
      {
        LightLed(carLight, i, position);
        CarLightOfLast(prefix, i);
      }
    }

    /** Advances and, past the last LED's window, despawns the car in slot k, adding its light. */
    method AdvanceSlot(carLight: array<Rgb8>, k: nat, ghost before: seq<Option<Car>>)
      requires cars.Length == MaxCars && carLight.Length == NumLeds
      requires k < |before| == cars.Length && cars[k] == before[k]
      requires forall i :: 0 <= i < NumLedsPerLane ==> carLight[i] == CarLight(before[..k], i)
      modifies cars, carLight
      ensures cars[k] == StepSlot(before[k])
      ensures forall j :: 0 <= j < cars.Length && j != k ==> cars[j] == old(cars[j])
      ensures forall i :: 0 <= i < NumLedsPerLane ==> carLight[i] == CarLight(before[..k + 1], i)
      ensures forall i :: NumLedsPerLane <= i < NumLeds ==> carLight[i] == old(carLight[i])
    {
      assert before[..k + 1][..k] == before[..k];
      if cars[k].Some? {
        var car := cars[k].value;
        car := car.(position := car.position + car.speed);
        AddCarLight(carLight, car.position, before[..k + 1]);
        if car.position > DespawnPosition {
          cars[k] := None;
        } else {
          cars[k] := Some(car);
        }
      } else {
        forall i | 0 <= i < NumLedsPerLane
          ensures CarLight(before[..k + 1], i) == CarLight(before[..k], i)
        {
          CarLightOfLast(before[..k + 1], i);
        }
      }
    }

    /**
     * The slot loop of the Cars branch: every car advances and is despawned past
     * the last LED's window, and each advanced car adds its light to a fresh
     * accumulator.
     */
    method AdvanceCars() returns (carLight: array<Rgb8>)
      requires cars.Length == MaxCars
      modifies cars
      ensures fresh(carLight) && carLight.Length == NumLeds
      ensures carLight[..] == CarLightFrame(old(cars[..]))
      ensures forall j :: 0 <= j < cars.Length ==> cars[j] == StepSlot(old(cars[j]))
    {
      ghost var before := cars[..];
      carLight := new Rgb8[NumLeds](_ => Black);
      var k := 0;
      while k < cars.Length
        invariant 0 <= k <= cars.Length
        invariant forall j :: 0 <= j < k ==> cars[j] == StepSlot(before[j])
        invariant forall j :: k <= j < cars.Length ==> cars[j] == before[j]
        invariant forall i :: 0 <= i < NumLedsPerLane ==> carLight[i] == CarLight(before[..k], i)
        invariant forall i :: NumLedsPerLane <= i < NumLeds ==> carLight[i] == Black
      {
        AdvanceSlot(carLight, k, before);
        k := k + 1;
      }
      assert before[..cars.Length] == before;
      assert forall j :: 0 <= j < NumLeds ==> carLight[j] == CarLightFrame(before)[j];
    }

    /** The render loop of the Cars branch: each LED is the default colour plus its car light. */
    static method Render(data: array<Rgb8>, carLight: array<Rgb8>, defaultColor: Rgb8)
      requires data.Length == NumLeds && carLight.Length == NumLeds && data != carLight
      modifies data
      ensures forall j :: 0 <= j < NumLeds ==> data[j] == Add(defaultColor, carLight[j])
    {
      for i := 0 to NumLeds
        invariant forall j :: 0 <= j < i ==> data[j] == Add(defaultColor, carLight[j])
      {
        data[i] := Add(defaultColor, carLight[i]);
      }
    }

    /** The spawn loop: the lowest empty slot, if there is one, receives NewCar(draw). */
    method SpawnCar(draw: u32) returns (drew: bool)
      requires cars.Length == MaxCars
      modifies cars
      ensures cars[..] == Spawned(old(cars[..]), draw)
      ensures drew == (FirstFree(old(cars[..])) < MaxCars)
    {
      ghost var before := cars[..];
      drew := false;
      for i := 0 to MaxCars
        invariant forall j :: 0 <= j < i ==> cars[j].Some?
        invariant cars[..] == before && !drew
      {
        if cars[i].None? {
          cars[i] := Some(NewCar(draw));
          drew := true;
          assert FirstFree(before) == i;
          break;
        }
      }
      assert !drew ==> FirstFree(before) == |before|;
    }

    /** The Cars branch: advance, light, despawn, render, then spawn on a spawn tick. */
    method StepCars(defaultColor: Rgb8, draw: u32) returns (drew: bool)
      requires data.Length == NumLeds && cars.Length == MaxCars
      modifies data, cars
      ensures data[..] == CarsFrame(defaultColor, old(cars[..]))
      ensures cars[..] == NextCars(old(cars[..]), cycle, draw)
      ensures drew == SpawnDraws(old(cars[..]), cycle)
    {
      ghost var before := cars[..];
      var carLight := AdvanceCars();
      ghost var stepped := cars[..];
      assert stepped == Stepped(before);
      Render(data, carLight, defaultColor);
      assert data[..] == CarsFrame(defaultColor, before);
      drew := false;
      if IsSpawnTick(cycle) {
        drew := SpawnCar(draw);
      }
    }

    /**
     * One tick of `run`'s loop under lighting state `mode`, with `draw` the value
     * the random source would return next. Returns the frame written to the
     * strip (when the frame is dirty) and whether the random value was taken.
     */
    method Tick(mode: LightingState, draw: u32) returns (frame: Option<seq<Rgb8>>, drew: bool)
      requires Valid()
      modifies this, data, cars
      ensures Valid()
      ensures data == old(data) && cars == old(cars)
      ensures Snapshot() == Step(old(Snapshot()), mode, draw)
      ensures frame == Some(data[..])
      ensures drew == (mode.Cars? && SpawnDraws(old(cars[..]), old(cycle)))
    {
      ghost var s := Snapshot();
      drew := false;
      match mode {
        case Off =>
          if lastState != mode {
            Fill(Black);
            dirty := true;
          }
        case SingleColour(colour) =>
          if lastState != mode {
            Fill(colour);
            dirty := true;
          }
        case RainbowCycle =>
          RenderRainbow();
          dirty := true;
        case Cars(defaultColor) =>
          drew := StepCars(defaultColor, draw);
          dirty := true;
      }
      lastState := mode;
      cycle := WrappingAddU16(cycle, 1);
      StepPreservesInv(s, mode, draw);
      frame := if dirty then Some(data[..]) else None;
    }
  }
}
