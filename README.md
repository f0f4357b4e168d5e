# Underpass diorama controller — Dafny model

This project models the sequential core of a model-diorama lighting controller
running on an RP2040 board. A shared configuration record (`SharedState`)
holds the streetlamp master enable, a brightness byte, six streetlamp modes and
the underpass LED-strip lighting state. Three loops use it:

- the streetlamp controller drives six lamp pins every 100 ms tick;
- the underpass controller renders a 16-LED frame every 10 ms tick, with a
  small car simulation in `Cars` mode;
- the web handlers get, replace and edit the record.

Each loop body is modelled as one atomic step over a snapshot of the record.

Modules (one per source file, plus two helpers and the scenarios):

- `Prelude` (`prelude.dfy`): `u8`/`u16`/`u32`, `Option`, `Result`, and the Rust
  operators the model needs. These are truncating `i32` division, `as u8` and
  `u16::wrapping_add`.
- `Rgb` (`rgb.dfy`): the `RGB8` colour of the smart_leds crate and its channel
  arithmetic.
- `Streetlamps` (`streetlamps.dfy`): lamp modes, the per-lamp level, the
  one-tick level specification `TickLevels`, and the class
  `StreetlampsRunner`, whose `Tick` method runs the `for i in 0..L` loop.
- `UnderpassLights` (`underpass_lights.dfy`): lighting states, cars, the hue
  wheel and the light falloff. The value `Controller` holds the loop's local
  state. `Step` is one tick over that value. The class `UnderpassLightsRunner`
  has arrays `data[16]` and `cars[10]`. Its `Tick` method runs the same tick in
  place and is proved equal to `Step`.
- `State` (`state.dfy`): the `SharedState` record, the mutex cell, and the error
  mapping of `serialize_into` / `deserialize_from`.
- `Web` (`web.dfy`): the four handlers, with methods that modify
  the mutex cell.
- `Scenarios` (`scenarios.dfy`): the default configuration from `src/main.rs`,
  multi-tick runs, and two end-to-end cases.

Modelling choices:

- The random source is an input. The underpass `Tick` receives the value
  `next_u32` would return and reports whether it took it. The streetlamp
  runner holds the generator as a stream `rng: nat -> u32` and a cursor
  `drawn`.
- The LED strip write is modelled as "the frame handed out is `data`":
  `Tick` returns `Some(data[..])` when the frame is dirty.
- Pins are a `bool` array, where `true` means high.
- The bincode encoder and decoder are function parameters. They are not
  defined here.
- Car positions and speeds are unbounded integers. `Inv` shows every car keeps
  speed 434 and a position in [-30000, 66300], so an `i32` add never overflows.

The code behaves as follows, and the model follows it:

- `Cars` carries only `default_color`; there is no interval or speed limit.
- Cars spawn when `cycle % 500 == 10`, with the fixed speed 434, and no spawn is
  scheduled.
- The white-light divisor is 1 on both branches.
- The car's lane is drawn but never read. Only LEDs 0..7 receive car light, so
  LEDs 8..15 always show the default colour.
- `dirty` is never reset, so every tick writes a frame.
- Colours are combined with the `RGB8` `+` operator, not saturating addition.

## Model

| member | source | states |
|---|---|---|
| `Prelude.DivTrunc` | src/underpass_lights.rs:141-148 | Rust `i32` division: it agrees with Dafny's `/` on non-negative dividends, is never positive for negative ones, and its magnitude is the magnitude quotient (truncation toward zero). |
| `Prelude.AsU8` | src/underpass_lights.rs:141-151 | `as u8` always yields a `u8` and is the identity on 0..255, the only values `power` and `falloff_power` take. |
| `Prelude.WrappingAddU16` | src/underpass_lights.rs:199 | `u16::wrapping_add`, a `u16` by its type; `RunCycle` and `RainbowIndexIsOffset` state what it computes over many ticks and in the index. |
| `Streetlamps.EffectiveMode` | src/streetlamps.rs:43-47 | The mode a lamp acts on: its own when enabled, Off otherwise. `DisabledAllLow` and `EnabledLevels` state its effect on the pins. |
| `Streetlamps.LampLevel` | src/streetlamps.rs:49-58 | The level one mode drives. `EnabledLevels` and `FlickerExtremes` state the three cases and the chance extremes. |
| `Streetlamps.TickLevels` | src/streetlamps.rs:41-60 | The levels of one whole tick: lamp i gets its effective mode's level from the random value at cursor + `DrawsBefore(i)`. `StreetlampsRunner.Tick` is proved to write exactly these. |
| `Streetlamps.TickLevel` | src/streetlamps.rs:43-58 | Lamp i's level in a tick: its effective mode's level, using the random value after those its flickering predecessors took. |
| `Streetlamps.DrawsRandom` | src/streetlamps.rs:52-53 | A lamp calls `next_u32` exactly when its effective mode is Flickering; `DrawsBefore` counts these calls. |
| `Streetlamps.DrawsBefore` | src/streetlamps.rs:41-58 | The lamps before index i take at most i random values. They take none when lamps are disabled, and none exactly when no effective mode before i is Flickering. |
| `Streetlamps.DisabledAllLow` | src/streetlamps.rs:43-50 | With the master enable false, every pin of the tick is low and no random value is taken. |
| `Streetlamps.EnabledLevels` | src/streetlamps.rs:43-58 | When enabled, each lamp uses its own mode. Off drives low, On drives high, and Flickering is high iff draw % 100 < chance. |
| `Streetlamps.FlickerExtremes` | src/streetlamps.rs:52-58 | A chance of 0 is always low. A chance of 100 or more (a `u32`) is always high. |
| `Streetlamps.DrawsInLampOrder` | src/streetlamps.rs:41-53 | Random values are taken in lamp-index order. A flickering lamp i takes its value strictly before any later lamp j. |
| `Streetlamps.StreetlampsRunner.constructor` | src/streetlamps.rs:26-32 | The runner keeps the given pins and random source, and no value has been drawn yet. |
| `Streetlamps.StreetlampsRunner.DriveLamp` | src/streetlamps.rs:42-59 | Pin i takes `LampLevel(mode, rng(drawn))`, no other pin changes, and the cursor advances by one exactly when the mode is Flickering. |
| `Streetlamps.StreetlampsRunner.Tick` | src/streetlamps.rs:38-61 | Each of the L pins is written once with `TickLevels`, which depends only on this tick's inputs. The cursor advances by exactly one per flickering lamp. Requires L <= 6, the length of the mode array the loop indexes. |
| `Rgb.AddChannel` | src/underpass_lights.rs:153-176 | The assumed `RGB8 +` channel addition: the exact sum below 256, wrapped modulo 256 above. |
| `Rgb.Add` | src/underpass_lights.rs:153-176 | `RGB8 +` and `+=`: `AddChannel` on each of the three channels. |
| `Rgb.DivScalar` | src/underpass_lights.rs:153-161 | `RGB8 / u8` per channel; dividing by 1 changes nothing. |
| `UnderpassLights.Wheel` | src/underpass_lights.rs:211-222 | For every input the channels sum to exactly 255 and at least one is 0. The subset types prove that `*3` and `255 -` never overflow `u8`. |
| `UnderpassLights.WheelSeam` | src/underpass_lights.rs:211-222 | Wheel(0) == Wheel(255) == (255, 0, 0). |
| `UnderpassLights.WheelBandRamps` | src/underpass_lights.rs:212-221 | Within each 85-wide band one channel is 0. The other two change by exactly 3 per step, in opposite directions. |
| `UnderpassLights.RainbowIndexIsOffset` | src/underpass_lights.rs:118-122 | The index expression, computed with `u16` truncation, wrapping add and `& 255`, equals (16*i + cycle) mod 256. |
| `UnderpassLights.RainbowFrameHues` | src/underpass_lights.rs:117-125 | In the rainbow frame, LED i is Wheel((16*i + cycle) mod 256). |
| `UnderpassLights.RainbowIndex` | src/underpass_lights.rs:119-121 | The hue index of LED i: `(i*256) as u16 / 16`, wrapping-added to the counter and masked to 8 bits. `RainbowIndexIsOffset` states its value. |
| `UnderpassLights.RainbowFrame` | src/underpass_lights.rs:117-124 | The rainbow frame has exactly 16 LEDs; `RainbowFrameHues` gives each LED's colour. |
| `UnderpassLights.Power` | src/underpass_lights.rs:138-145 | The primary intensity lies in [0, 80]. It is 80 exactly at distance 0, and 0 from MaxCarDistance on. |
| `UnderpassLights.FalloffPower` | src/underpass_lights.rs:146-151 | The falloff intensity is at most `power`, and it is 0 once 4*dist >= 30000, i.e. dist >= 7500. |
| `UnderpassLights.PowerNonIncreasing` | src/underpass_lights.rs:138-151 | Both intensities are non-increasing in the distance. |
| `UnderpassLights.LightDivisor` | src/underpass_lights.rs:139 | The divisor is 1 whichever side of the LED the car is on. |
| `UnderpassLights.InWindow` | src/underpass_lights.rs:135-136 | A car lights an LED only strictly within 30000 of it. |
| `UnderpassLights.Accumulate` | src/underpass_lights.rs:134-164 | One car's light added to one LED's accumulator, in the code's order of the two `+=`. `SingleCarLightBounds` states what it adds. |
| `UnderpassLights.SingleCarLightBounds` | src/underpass_lights.rs:135-164 | One car adds at most (160, 80, 26) to an LED. Added to an empty accumulator there is no wrap: red is power + falloff and green/blue are the white part's intensity and a third of it, on either side of the LED. Outside the window it adds nothing. At the LED itself it adds (160, 80, 26). |
| `UnderpassLights.StepSlot` | src/underpass_lights.rs:129-172 | One slot's advance by its speed and despawn past 66300. `NextCarsSlots` states its effect slot by slot. |
| `UnderpassLights.Stepped` | src/underpass_lights.rs:129-172 | The slots after the slot loop: as many as before, each one `StepSlot` of its old value. |
| `UnderpassLights.CarLight` | src/underpass_lights.rs:127-165 | The car light of lane LED i accumulated over the slots in order, each occupied slot using its advanced position. `CarLightIgnoresLane` and `SingleCarLightBounds` state its properties; `AddCarLight` and `StepCars` are proved to compute it. |
| `UnderpassLights.CarLightFrame` | src/underpass_lights.rs:127-165 | The whole `car_light` array has 16 entries; LEDs 8..15 stay dark (`SecondLaneUnlit`). |
| `UnderpassLights.CarsFrame` | src/underpass_lights.rs:175-177 | The Cars frame has 16 LEDs, each the default colour plus its car light; `SecondLaneUnlit` and `CarsFrameIgnoresLane` state its properties. |
| `UnderpassLights.NewCar` | src/underpass_lights.rs:184-188 | The spawned car. `NewCarWellFormed` states its fields and that it is well formed. |
| `UnderpassLights.Spawned` | src/underpass_lights.rs:182-191 | A spawn attempt keeps the number of slots; `NextCarsSlots` states that only the lowest empty slot changes. |
| `UnderpassLights.IsSpawnTick` | src/underpass_lights.rs:180 | A spawn tick is `cycle % 500 == 10`; `SpawnTicksAtWrap` states its behaviour at the counter wrap. |
| `UnderpassLights.NextCars` | src/underpass_lights.rs:129-192 | One Cars tick keeps the number of slots; `NextCarsSlots` gives every slot's new value. |
| `UnderpassLights.SpawnDraws` | src/underpass_lights.rs:180-191 | True iff the tick is a spawn tick and a stepped slot is empty, i.e. iff `next_u32` is called at line 187. `StepCars` and `Tick` ensure that `drew` equals it. |
| `UnderpassLights.FirstFree` | src/underpass_lights.rs:182-191 | The result is the lowest empty slot: every slot below it is occupied, and it is empty. It is the array length when all slots are full. |
| `UnderpassLights.NextCarsSlots` | src/underpass_lights.rs:129-192 | Every occupied slot advances by exactly its speed. It is cleared iff its new position exceeds 66300. On a spawn tick only, the lowest then-empty slot gets position -30000, speed 434 and lane draw % 2; with no empty slot nothing is added. |
| `UnderpassLights.NextCarsWellFormed` | src/underpass_lights.rs:129-192 | Advancing, despawning and spawning keep every car well formed: speed 434, position in [-30000, 66300], lane 0 or 1. |
| `UnderpassLights.EmptyStaysEmpty` | src/underpass_lights.rs:129-192 | On a tick that is not a spawn tick, slots that were all empty stay empty. |
| `UnderpassLights.SpawnIntoEmpty` | src/underpass_lights.rs:180-191 | On a spawn tick with every slot empty, slot 0 receives `NewCar(draw)` and every other slot stays empty. |
| `UnderpassLights.NewCarWellFormed` | src/underpass_lights.rs:184-188 | A spawned car is well formed, and its lane is 0 or 1. |
| `UnderpassLights.SpawnTicksAtWrap` | src/underpass_lights.rs:180-199 | 65510 and 10 are both spawn ticks. Because the counter wraps, there is no spawn tick in the 35 ticks between them: they are 36 ticks apart. |
| `UnderpassLights.SecondLaneUnlit` | src/underpass_lights.rs:133-177 | In Cars mode LEDs 8..15 show exactly the default colour, whatever the cars' lanes. |
| `UnderpassLights.CarLightIgnoresLane` | src/underpass_lights.rs:129-165 | The accumulated car light on an LED does not depend on the cars' lanes. |
| `UnderpassLights.CarsFrameIgnoresLane` | src/underpass_lights.rs:126-178 | The whole Cars frame does not depend on the cars' lanes. |
| `UnderpassLights.Filled` | src/underpass_lights.rs:103-113 | A frame of 16 LEDs, every one the given colour. |
| `UnderpassLights.Step` | src/underpass_lights.rs:96-202 | One tick of `run`'s loop over the loop's local state. `StepPreservesInv`, `StepBookkeeping`, `StaticModeRepeats`, `StaticModeFrame` and `CarsFrameIgnoresLane` state its properties, and `UnderpassLightsRunner.Tick` is proved equal to it. |
| `UnderpassLights.Initial` | src/underpass_lights.rs:83-94 | The start values of `run`'s locals: every LED dark, all ten slots empty, counter 0, last state Off, dirty. |
| `UnderpassLights.InitialInv` | src/underpass_lights.rs:83-94 | The start state has a dark frame, no cars and last mode Off, so it satisfies the invariant. |
| `UnderpassLights.StepPreservesInv` | src/underpass_lights.rs:96-202 | Every tick keeps the invariant: Off shows all dark and SingleColour(c) shows all c, every car is well formed, and the frame is dirty. It also proves the `i32` position add cannot overflow. |
| `UnderpassLights.StepBookkeeping` | src/underpass_lights.rs:100-202 | Every tick sets last_state to the mode, sets cycle to (cycle+1) mod 65536 and leaves dirty true. Non-Cars ticks do not touch the cars. A RainbowCycle tick paints the rainbow frame for the old counter. |
| `UnderpassLights.StaticModeRepeats` | src/underpass_lights.rs:100-116 | Repeating Off or SingleColour leaves the frame unchanged, and that frame already shows the mode. |
| `UnderpassLights.StaticModeFrame` | src/underpass_lights.rs:100-116 | After any Off tick every LED is dark. After any SingleColour(c) tick every LED is c. |
| `UnderpassLights.UnderpassLightsRunner.constructor` | src/underpass_lights.rs:83-94 | A fresh runner is valid and equals the start state. |
| `UnderpassLights.UnderpassLightsRunner.Fill` | src/underpass_lights.rs:103-113 | Every LED is set to the given colour. |
| `UnderpassLights.UnderpassLightsRunner.RenderRainbow` | src/underpass_lights.rs:118-123 | The frame becomes the rainbow frame for the current counter. |
| `UnderpassLights.UnderpassLightsRunner.LightLed` | src/underpass_lights.rs:134-163 | One car's light is added to one lane LED's accumulator, and the other LEDs are unchanged. |
| `UnderpassLights.UnderpassLightsRunner.AddCarLight` | src/underpass_lights.rs:133-165 | The inner LED loop adds one car's light to LEDs 0..7 and leaves LEDs 8..15 unchanged. |
| `UnderpassLights.UnderpassLightsRunner.AdvanceSlot` | src/underpass_lights.rs:129-172 | Slot k becomes `StepSlot` of its old value and no other slot changes. Its car's light is added to LEDs 0..7 as `CarLight` over the slots up to k, and LEDs 8..15 are unchanged. |
| `UnderpassLights.UnderpassLightsRunner.AdvanceCars` | src/underpass_lights.rs:127-173 | The slot loop leaves every slot as `StepSlot` of its old value. It returns a fresh light buffer equal to `CarLightFrame` of the old slots. |
| `UnderpassLights.UnderpassLightsRunner.Render` | src/underpass_lights.rs:175-177 | Every LED becomes the default colour plus its car light. |
| `UnderpassLights.UnderpassLightsRunner.SpawnCar` | src/underpass_lights.rs:182-191 | The slots become `Spawned` of the old slots, so only the lowest empty slot receives `NewCar(draw)`. It takes the random value iff there was an empty slot. |
| `UnderpassLights.UnderpassLightsRunner.StepCars` | src/underpass_lights.rs:126-192 | The Cars branch leaves the cars as `NextCars` and the frame as `CarsFrame`. It takes the random value iff a spawn fills a slot. |
| `UnderpassLights.UnderpassLightsRunner.Tick` | src/underpass_lights.rs:96-202 | The in-place tick equals the value `Step` and keeps `Valid()`. It hands out the frame every tick, and reports whether the random value was taken. |
| `State.SharedStateMutex.constructor` | src/state.rs:17-18 | The mutex cell holds the given initial record. |
| `State.SerializeInto` | src/state.rs:30-37 | On success it returns the encoder's byte count. Any encoder failure becomes BufferTooSmall. The buffer is left as the encoder wrote it. |
| `State.DeserializeFrom` | src/state.rs:39-48 | On success it returns the decoded record and drops the consumed length. Any decoder failure becomes InvalidData. |
| `State.StoreThenRestore` | src/state.rs:29-49 | If the codec decodes what it encodes, a successful serialize followed by deserialize returns the same record. |
| `State.EqualityIsStructural` | src/state.rs:9-15 | Two records are equal iff all four fields are equal, including each of the six lamp modes. |
| `State.SingleChangesDetected` | src/state.rs:9-15 | Changing one lamp's mode compares unequal, and so does changing only the colour payload of the lighting state. |
| `Web.ModeOfCode` | src/web.rs:71-76 | The lamp-mode code table; `CodeTable` states it in both directions. |
| `Web.PowerToggled` | src/web.rs:58-59 | The record after `/power`; `PowerToggleProperties` states what changes. |
| `Web.LampSet` | src/web.rs:69-77 | The record after `/lamp/{id}/{state}`; `LampSetProperties` states the bounds check and the frame. |
| `Web.GetState` | src/web.rs:22-26 | It returns a copy of the record and changes nothing. |
| `Web.SetState` | src/web.rs:28-35 | It replaces the whole record and returns a copy equal to its input. |
| `Web.SetThenGet` | src/web.rs:22-35 | A `get_state` after `set_state` returns the record that was set. |
| `Web.TogglePower` | src/web.rs:57-61 | It flips `streetlamps_enabled`, changes no other field, and returns the new value. |
| `Web.SetLamp` | src/web.rs:66-79 | The new record is `LampSet` of the old one. |
| `Web.CodeTable` | src/web.rs:71-76 | 0 maps to Off, 1 to On, 2 to Flickering{chance: 90}, and every other code to Off. |
| `Web.PowerToggleProperties` | src/web.rs:57-61 | Toggling flips only the enable, always changes the record, and toggling twice restores the original. |
| `Web.LampSetProperties` | src/web.rs:70-76 | With id >= 6 the record is unchanged. With id < 6 only lamp id changes, to the code's mode. Repeating the call is idempotent. |
| `Scenarios.Defaults` | src/main.rs:61-77 | The compiled-in record has the lamps enabled, no lamp that takes a random value (all On), and the underpass in Cars mode. |
| `Scenarios.Run` | src/underpass_lights.rs:95-205 | Successive iterations of the `run` loop as repeated `Step`s. `RunKeepsInv`, `RunCycle` and `NoCarBeforeFirstSpawnTick` state its properties. |
| `Scenarios.RunKeepsInv` | src/underpass_lights.rs:95-205 | Any sequence of ticks from a valid state keeps the invariant. |
| `Scenarios.RunCycle` | src/underpass_lights.rs:85-199 | After n ticks the counter is (start + n) mod 65536. |
| `Scenarios.NoCarBeforeFirstSpawnTick` | src/underpass_lights.rs:180-199 | From the start state no car exists during the first ten ticks, in any modes. |
| `Scenarios.DefaultsLightEveryLamp` | src/main.rs:61-77 | With the compiled-in defaults (enabled, all On), one lamp tick drives all six pins high and takes no random value. |
| `Scenarios.CarsModeFirstSpawn` | src/underpass_lights.rs:180-192 | A fresh runner in the default Cars mode has no car after ten ticks. Tick 11 (counter 10) puts NewCar(draw) in slot 0 and leaves the other slots empty. |

## Left out

- Rgb.AddChannel: The `RGB8` `+` / `+=` operators come from a crate that is not part of this model. Wrapping `u8` addition is an assumption, stated once here. This model does not prove that several cars' light never wraps; `SingleCarLightBounds` bounds one car's light.
- The code adds colours with the plain `RGB8 +`, not saturating addition. It spawns at fixed ticks with a fixed speed, and it never reads a car's lane. The model has nothing beyond that behaviour: no spawn interval, no random speeds, no per-lane rendering.
- Asynchronous tasks, the mutex and the 10 ms / 100 ms timers are left out. Each tick is one atomic step over a snapshot of the record, and the mutex cell is a plain object.
- The WS2812 PIO/DMA driver is left out. The frame handed to it is `data`.
- The `debug!` log line in the spawn branch is left out.
- The program has no flash fetch/store loop. `src/state.rs` only implements the storage `Value` encoding. `sequential_storage` and bincode are foreign libraries, so the codec is a pair of function parameters.
- State: the 100-byte size ceiling is checked by the Rust compiler, not at run time. It is recorded as the constant `SizeCeiling` and not proved.
- State: `SerializationError` has only the two variants this record produces.
- Board bring-up, USB, networking, DHCP/mDNS, the web router and JSON extraction in `src/main.rs` and `src/web.rs` are left out. So are the pin trait implementations in `src/pins.rs` and `src/rp.rs`. Only the initial record is kept, as `Scenarios.Defaults`.
- The browser script `static/script.js` is left out, because it is UI code. Its `debounce_leading` never sets `timer` on the first call, so it never actually debounces.
- `streetlamps_brightness` is carried and compared but never read by any logic, so no behaviour is given to it.
