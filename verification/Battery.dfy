/** The charge controller: constant current, then constant voltage for two hours (battery.c). */
module Battery {
  const LIFEPO4 := 2
  const TITANATE := 3
  const CC := 1
  const CV := 2
  const CV_SECONDS := 2 * 3600

  // ---------------------------------------------------------------------------------------------
  // Values

  /** What battery_init takes from the configuration file: a negative number stands for a missing one. */
  datatype Config = Config(
    chemistry: int, cells: int, cellLow: real, cellCritLow: real, cellHigh: real, cellCritHigh: real, cRate: real, eRate: real,
    userCapacity: real, userChargeVoltage: real, userChargeMaxVoltage: real, userChargeAmps: real,
    userDischargeVoltage: real, userDischargeAmps: real, chargeAtMax: bool)

  /** What the controller works with once battery_init has run. */
  datatype Settings = Settings(config: Config, cellMin: real, cellMax: real, chargeMaxVoltage: real, capacity: real)

  datatype Sensors = Sensors(voltage: real, amps: real, temp: real, frequency: real, cellMin: real, cellMax: real)

  /** What charge_start, charge_stop and charge_check change. */
  datatype Charge = Charge(
    charging: bool, mode: int, amps: real, voltage: real, target: real, dischargeVoltage: real, dischargeAmps: real,
    cvStart: int, tvolt: real, startTemp: real)

  function OrDefault(x: real, default: real): (r: real)
    ensures default >= 0.0 ==> r >= 0.0
  {
    if x < 0.0 then default else x
  }

  function Completed(c: Config, low: real, critLow: real, high: real, critHigh: real, cRate: real, eRate: real, cells: int): Config {
    c.(cellLow := OrDefault(c.cellLow, low), cellCritLow := OrDefault(c.cellCritLow, critLow),
       cellHigh := OrDefault(c.cellHigh, high), cellCritHigh := OrDefault(c.cellCritHigh, critHigh),
       cRate := OrDefault(c.cRate, cRate), eRate := OrDefault(c.eRate, eRate),
       cells := if c.cells < 0 then cells else c.cells)
  }

  /** battery_init up to the charge: the chemistry supplies what the configuration leaves open; lithium is the default. */
  function Initial(c: Config): Settings {
    var (config, cellMin, cellMax) :=
      if c.chemistry == LIFEPO4 then (Completed(c, 2.5, 2.0, 3.4, 3.7, 1.0, 1.0, 16), 2.5, 3.65)
      else if c.chemistry == TITANATE then (Completed(c, 1.81, 1.8, 2.85, 2.88, 1.0, 10.0, 22), 1.8, 2.85)
      else (Completed(c, 3.0, 2.95, 4.2, 4.25, 0.7, 1.0, 14), 2.8, 4.2);
    Settings(config, cellMin, cellMax,
             if c.userChargeVoltage < 0.0 then cellMax * config.cells as real else c.userChargeMaxVoltage,
             if c.userCapacity < 0.0 then 0.0 else c.userCapacity)
  }

  /** The voltage of the configuration, or that of a full battery. */
  function SetVoltage(s: Settings): real {
    var c := s.config;
    if c.userChargeVoltage < 0.0 then c.cellHigh * c.cells as real else c.userChargeVoltage
  }

  /** The voltage a charge starts with. */
  function StartVoltage(s: Settings): real {
    if s.config.chargeAtMax then s.chargeMaxVoltage else SetVoltage(s)
  }

  function StartAmps(s: Settings): real {
    if s.config.userChargeAmps < 0.0 then s.config.cRate * s.capacity else s.config.userChargeAmps
  }

  /** A C cast to int. */
  function Truncate(x: real): int {
    if x < 0.0 then -(-x).Floor else x.Floor
  }

  function Stopped(s: Settings, c: Charge): Charge {
    var config := s.config;
    c.(charging := false, amps := 0.1, voltage := SetVoltage(s),
       dischargeVoltage := if config.userDischargeVoltage < 0.0 then config.cellLow * config.cells as real else config.userDischargeVoltage,
       dischargeAmps := if config.userDischargeAmps < 0.0 then config.eRate * s.capacity else config.userDischargeAmps)
  }

  /** A charge starts only once there is a capacity. */
  function Started(s: Settings, c: Charge, x: Sensors): Charge {
    if Truncate(s.capacity) == 0 then c else
    c.(charging := true, mode := CC, amps := StartAmps(s), voltage := StartVoltage(s),
       target := if s.config.chargeAtMax then c.target else SetVoltage(s), tvolt := x.voltage, startTemp := x.temp)
  }

  /** The charge after battery_init, which stops and starts it. */
  function InitialCharge(s: Settings, c: Charge, x: Sensors): Charge {
    Started(s, Stopped(s, c.(target := s.config.cellHigh * s.config.cells as real)), x)
  }

  /** By how many percent val1 lies above val2 (main.c). */
  function Pct(val1: real, val2: real): real
    requires val1 != 0.0
  {
    100.0 - (val2 / val1) * 100.0
  }

  /** One call of charge_check: the two readings of the clock that it may take, and what the sensors say. */
  datatype Tick = Tick(now: int, later: int, sensors: Sensors)

  function CheckCC(s: Settings, c: Charge, later: int, x: Sensors): Charge {
    if x.voltage > c.target || x.cellMax >= s.cellMax then
      c.(cvStart := later, mode := CV, voltage := SetVoltage(s))
    else if -x.amps < c.amps && x.frequency > 60.0 && c.voltage < s.chargeMaxVoltage then
      c.(voltage := if c.voltage + 0.1 > s.chargeMaxVoltage then s.chargeMaxVoltage else c.voltage + 0.1)
    else
      c
  }

  function Checked(s: Settings, c: Charge, t: Tick): Charge {
    var x := t.sensors;
    if c.charging then
      if x.temp <= 0.0 then Stopped(s, c) else
      var cooled := if x.temp <= 5.0 then c.(amps := c.amps / 4.0) else c;
      if Pct(x.temp, c.startTemp) > 5.0 then Stopped(s, cooled)
      else if c.mode == CC then CheckCC(s, cooled, t.later, x)
      else if c.mode == CV && t.now >= c.cvStart + CV_SECONDS then Stopped(s, cooled)
      else cooled
    else if x.voltage < c.dischargeVoltage || x.cellMin <= s.cellMin then Started(s, c, x)
    else c
  }

  // ---------------------------------------------------------------------------------------------
  // The controller

  class Controller {
    var config: Config
    var cellMin: real
    var cellMax: real
    var chargeMaxVoltage: real
    var capacity: real
    /** Written by the main loop between the checks. */
    var sensors: Sensors

    var charging: bool
    var chargeMode: int
    var chargeAmps: real
    var chargeVoltage: real
    var chargeTargetVoltage: real
    var dischargeVoltage: real
    var dischargeAmps: real
    var cvStartTime: int
    var tvolt: real
    var startTemp: real

    ghost function TheSettings(): Settings
      reads `config, `cellMin, `cellMax, `chargeMaxVoltage, `capacity
    {
      Settings(config, cellMin, cellMax, chargeMaxVoltage, capacity)
    }

    ghost function TheCharge(): Charge
      reads this
    {
      Charge(charging, chargeMode, chargeAmps, chargeVoltage, chargeTargetVoltage, dischargeVoltage, dischargeAmps,
             cvStartTime, tvolt, startTemp)
    }

    /** The defaults of one chemistry. */
    method Complete(low: real, critLow: real, high: real, critHigh: real, cRate: real, eRate: real, cells: int)
      modifies `config
      ensures config == Completed(old(config), low, critLow, high, critHigh, cRate, eRate, cells)
    {
      if config.cellLow < 0.0 { config := config.(cellLow := low); }
      if config.cellCritLow < 0.0 { config := config.(cellCritLow := critLow); }
      if config.cellHigh < 0.0 { config := config.(cellHigh := high); }
      if config.cellCritHigh < 0.0 { config := config.(cellCritHigh := critHigh); }
      if config.cRate < 0.0 { config := config.(cRate := cRate); }
      if config.eRate < 0.0 { config := config.(eRate := eRate); }
      if config.cells < 0 { config := config.(cells := cells); }
    }

    /** The part of battery_init that depends on the chemistry. */
    method InitSettings()
      modifies `config, `cellMin, `cellMax, `chargeMaxVoltage, `capacity
      ensures TheSettings() == Initial(old(config))
    {
      if config.chemistry == LIFEPO4 {
        Complete(2.5, 2.0, 3.4, 3.7, 1.0, 1.0, 16);
        cellMin, cellMax := 2.5, 3.65;
      } else if config.chemistry == TITANATE {
        Complete(1.81, 1.8, 2.85, 2.88, 1.0, 10.0, 22);
        cellMin, cellMax := 1.8, 2.85;
      } else {
        Complete(3.0, 2.95, 4.2, 4.25, 0.7, 1.0, 14);
        cellMin, cellMax := 2.8, 4.2;
      }
      chargeMaxVoltage := if config.userChargeVoltage < 0.0 then cellMax * config.cells as real else config.userChargeMaxVoltage;
      capacity := if config.userCapacity < 0.0 then 0.0 else config.userCapacity;
    }

    /** battery_init. */
    method Init()
      modifies this
      ensures TheSettings() == Initial(old(config)) && sensors == old(sensors)
      ensures TheCharge() == InitialCharge(TheSettings(), old(TheCharge()), sensors)
    {
      InitSettings();
      chargeTargetVoltage := config.cellHigh * config.cells as real;
      ChargeStop();
      ChargeStart();
    }

    /** charge_stop. */
    method ChargeStop()
      modifies `charging, `chargeAmps, `chargeVoltage, `dischargeVoltage, `dischargeAmps
      ensures TheCharge() == Stopped(TheSettings(), old(TheCharge()))
    {
      charging := false;
      chargeAmps := 0.1;
      chargeVoltage := if config.userChargeVoltage < 0.0 then config.cellHigh * config.cells as real else config.userChargeVoltage;
      dischargeVoltage :=
        if config.userDischargeVoltage < 0.0 then config.cellLow * config.cells as real else config.userDischargeVoltage;
      dischargeAmps := if config.userDischargeAmps < 0.0 then config.eRate * capacity else config.userDischargeAmps;
    }

    /** charge_start. */
    method ChargeStart()
      modifies `charging, `chargeAmps, `chargeVoltage, `chargeTargetVoltage, `chargeMode, `tvolt, `startTemp
      ensures TheCharge() == Started(TheSettings(), old(TheCharge()), sensors)
    {
      if Truncate(capacity) == 0 {
        return;
      }
      charging := true;
      if config.chargeAtMax {
        chargeVoltage := chargeMaxVoltage;
      } else {
        chargeTargetVoltage :=
          if config.userChargeVoltage < 0.0 then config.cellHigh * config.cells as real else config.userChargeVoltage;
        chargeVoltage := chargeTargetVoltage;
      }
      chargeAmps := if config.userChargeAmps < 0.0 then config.cRate * capacity else config.userChargeAmps;
      chargeMode := CC;
      tvolt := sensors.voltage;
      startTemp := sensors.temp;
    }

    /** The constant-current part of charge_check. */
    method CheckConstantCurrent(later: int)
      modifies `chargeVoltage, `chargeMode, `cvStartTime
      ensures TheCharge() == CheckCC(TheSettings(), old(TheCharge()), later, sensors)
    {
      var amps := sensors.amps * -1.0;
      if sensors.voltage > chargeTargetVoltage || sensors.cellMax >= cellMax {
        cvStartTime := later;
        chargeMode := CV;
        chargeVoltage := if config.userChargeVoltage < 0.0 then config.cellHigh * config.cells as real else config.userChargeVoltage;
      } else if amps < chargeAmps && sensors.frequency > 60.0 && chargeVoltage < chargeMaxVoltage {
        chargeVoltage := chargeVoltage + 0.1;
        if chargeVoltage > chargeMaxVoltage {
          chargeVoltage := chargeMaxVoltage;
        }
      }
    }

    /** charge_check; the clock is read at the start, and again when the charge enters constant voltage. */
    method ChargeCheck(now: int, later: int)
      modifies `charging, `chargeAmps, `chargeVoltage, `chargeTargetVoltage, `chargeMode, `tvolt, `startTemp
      modifies `dischargeVoltage, `dischargeAmps, `cvStartTime
      ensures TheCharge() == Checked(TheSettings(), old(TheCharge()), Tick(now, later, sensors))
    {
      if charging {
        if sensors.temp <= 0.0 {
          ChargeStop();
          return;
        }
        if sensors.temp <= 5.0 {
          chargeAmps := chargeAmps / 4.0;
        }
        if Pct(sensors.temp, startTemp) > 5.0 {
          ChargeStop();
          return;
        }
        if chargeMode == CC {
          CheckConstantCurrent(later);
        } else if chargeMode == CV {
          if now >= cvStartTime + CV_SECONDS {
            ChargeStop();
          }
        }
      } else if sensors.voltage < dischargeVoltage || sensors.cellMin <= cellMin {
        ChargeStart();
      }
    }
  }

  // ---------------------------------------------------------------------------------------------
  // Whole runs

  function Run(s: Settings, c: Charge, ticks: seq<Tick>): Charge
    decreases |ticks|
  {
    if ticks == [] then c else Run(s, Checked(s, c, ticks[0]), ticks[1..])
  }

  /** What battery_init makes of the rates and the capacity. */
  ghost predicate Sound(s: Settings) {
    s.config.cRate >= 0.0 && s.capacity >= 0.0
  }

  /** What holds between two checks, whatever the clock says. */
  ghost predicate ChargeInv(s: Settings, c: Charge) {
    (!c.charging ==> c.amps == 0.1 && c.voltage == SetVoltage(s)) &&
    (c.charging ==> (c.mode == CC || c.mode == CV) && 0.0 <= c.amps <= StartAmps(s)) &&
    (c.charging && c.mode == CC ==>
       StartVoltage(s) <= c.voltage && (c.voltage <= StartVoltage(s) || c.voltage <= s.chargeMaxVoltage)) &&
    (c.charging && c.mode == CV ==> c.voltage == SetVoltage(s))
  }

  lemma StartAmpsAreNotNegative(s: Settings)
    requires Sound(s)
    ensures StartAmps(s) >= 0.0
  {
  }

  lemma InitEstablishes(config: Config, before: Charge, x: Sensors)
    ensures var s := Initial(config);
            Sound(s) && ChargeInv(s, InitialCharge(s, before, x))
  {
    StartAmpsAreNotNegative(Initial(config));
  }

  lemma CheckKeeps(s: Settings, c: Charge, t: Tick)
    requires Sound(s) && ChargeInv(s, c)
    ensures ChargeInv(s, Checked(s, c, t))
  {
    StartAmpsAreNotNegative(s);
  }

  lemma {:induction false} RunKeeps(s: Settings, c: Charge, ticks: seq<Tick>)
    requires Sound(s) && ChargeInv(s, c)
    ensures ChargeInv(s, Run(s, c, ticks))
    decreases |ticks|
  {
    if ticks != [] {
      CheckKeeps(s, c, ticks[0]);
      RunKeeps(s, Checked(s, c, ticks[0]), ticks[1..]);
    }
  }

  /**
    * Every run of charge_check after battery_init: no charge means 0.1 amps; a charge is in one of two modes, its current
    * never exceeds the one it started with, and with constant current its voltage never exceeds the larger of the starting
    * voltage and the maximum.
    */
  lemma EveryRunIsSafe(config: Config, before: Charge, x: Sensors, ticks: seq<Tick>)
    ensures var s := Initial(config);
            var c := Run(s, InitialCharge(s, before, x), ticks);
            (!c.charging ==> c.amps == 0.1) &&
            (c.charging ==> (c.mode == CC || c.mode == CV) && 0.0 <= c.amps <= StartAmps(s)) &&
            (c.charging && c.mode == CC ==> c.voltage <= StartVoltage(s) || c.voltage <= s.chargeMaxVoltage)
  {
    InitEstablishes(config, before, x);
    RunKeeps(Initial(config), InitialCharge(Initial(config), before, x), ticks);
  }

  // ---------------------------------------------------------------------------------------------
  // One charge, from its start to its end

  /** A charge that goes on through all the checks. */
  predicate GoesOn(s: Settings, c: Charge, ticks: seq<Tick>)
    decreases |ticks|
  {
    c.charging && (ticks == [] || GoesOn(s, Checked(s, c, ticks[0]), ticks[1..]))
  }

  /** The battery is above freezing, and the temperature at the start is at least 95 percent of that now. */
  predicate Healthy(startTemp: real, temp: real) {
    temp > 0.0 && startTemp >= 0.95 * temp
  }

  lemma PctMeans(temp: real, startTemp: real)
    requires temp > 0.0
    ensures Pct(temp, startTemp) > 5.0 <==> startTemp < 0.95 * temp
  {
    var q := startTemp / temp;
    assert startTemp == q * temp;
    if q < 0.95 {
      assert q * temp < 0.95 * temp;
    } else {
      assert q * temp >= 0.95 * temp;
    }
  }

  /** When a check ends a charge. */
  lemma ChargeEnds(s: Settings, c: Charge, t: Tick)
    requires c.charging
    ensures !Checked(s, c, t).charging <==>
            !Healthy(c.startTemp, t.sensors.temp) || (c.mode == CV && t.now >= c.cvStart + 2 * 3600)
  {
    if t.sensors.temp > 0.0 {
      PctMeans(t.sensors.temp, c.startTemp);
    }
  }

  /** How many checks find the battery at 5 degrees or less. */
  function Colds(ticks: seq<Tick>): nat {
    if ticks == [] then 0 else (if ticks[0].sensors.temp <= 5.0 then 1 else 0) + Colds(ticks[1..])
  }

  function Quartered(amps: real, times: nat): (r: real)
    ensures amps >= 0.0 ==> 0.0 <= r <= amps
    decreases times
  {
    if times == 0 then amps else Quartered(amps / 4.0, times - 1)
  }

  /**
    * While a charge goes on its current is quartered at every cold check, and changes in no other way, so it never rises;
    * constant voltage is never left, and the voltage only rises before it.
    */
  lemma {:induction false} ChargeGoesOneWay(s: Settings, c: Charge, ticks: seq<Tick>)
    requires GoesOn(s, c, ticks) && (c.mode == CC || c.mode == CV)
    ensures var d := Run(s, c, ticks);
            d.charging && d.amps == Quartered(c.amps, Colds(ticks)) && c.mode <= d.mode <= CV && d.startTemp == c.startTemp &&
            (c.mode == CV ==> d.voltage == c.voltage && d.cvStart == c.cvStart) &&
            (d.mode == CC ==> c.voltage <= d.voltage)
    decreases |ticks|
  {
    if ticks != [] {
      ChargeEnds(s, c, ticks[0]);
      ChargeGoesOneWay(s, Checked(s, c, ticks[0]), ticks[1..]);
    }
  }

  lemma CurrentNeverRises(s: Settings, c: Charge, ticks: seq<Tick>)
    requires GoesOn(s, c, ticks) && (c.mode == CC || c.mode == CV) && c.amps >= 0.0
    ensures 0.0 <= Run(s, c, ticks).amps <= c.amps
  {
    ChargeGoesOneWay(s, c, ticks);
  }

  /** With constant voltage a charge goes on exactly as long as the battery stays healthy and the two hours last. */
  lemma {:induction false} ConstantVoltageLasts(s: Settings, c: Charge, ticks: seq<Tick>)
    requires c.charging && c.mode == CV
    ensures GoesOn(s, c, ticks) <==>
            forall t | t in ticks :: Healthy(c.startTemp, t.sensors.temp) && t.now < c.cvStart + 2 * 3600
    decreases |ticks|
  {
    if ticks != [] {
      ChargeEnds(s, c, ticks[0]);
      if Checked(s, c, ticks[0]).charging {
        ConstantVoltageLasts(s, Checked(s, c, ticks[0]), ticks[1..]);
      }
    }
  }

  /** A charge keeps to constant current exactly as long as the battery stays healthy and below its target. */
  lemma {:induction false} ConstantCurrentLasts(s: Settings, c: Charge, ticks: seq<Tick>)
    requires c.charging && c.mode == CC
    ensures GoesOn(s, c, ticks) && Run(s, c, ticks).mode == CC <==>
            forall t | t in ticks ::
              Healthy(c.startTemp, t.sensors.temp) && t.sensors.voltage <= c.target && t.sensors.cellMax < s.cellMax
    decreases |ticks|
  {
    if ticks != [] {
      var d := Checked(s, c, ticks[0]);
      ChargeEnds(s, c, ticks[0]);
      if GoesOn(s, d, ticks[1..]) {
        ChargeGoesOneWay(s, d, ticks[1..]);
      }
      if d.charging && d.mode == CC {
        ConstantCurrentLasts(s, d, ticks[1..]);
      }
    }
  }

  // ---------------------------------------------------------------------------------------------
  // From idle to a charge, and through it

  /** The voltage below which the configuration calls a battery discharged: the user's, or that of empty cells. */
  function DischargeLimit(c: Config): real {
    if c.userDischargeVoltage >= 0.0 then c.userDischargeVoltage else c.cellLow * c.cells as real
  }

  function DischargeAmps(s: Settings): real {
    if s.config.userDischargeAmps >= 0.0 then s.config.userDischargeAmps else s.config.eRate * s.capacity
  }

  /** There is a capacity, and the battery is discharged or one of its cells is empty. */
  predicate Wanted(s: Settings, x: Sensors) {
    !(-1.0 < s.capacity < 1.0) && (x.voltage < DischargeLimit(s.config) || x.cellMin <= s.cellMin)
  }

  /** The voltage above which a charge leaves constant current. */
  function Target(c: Config): real {
    if c.chargeAtMax || c.userChargeVoltage < 0.0 then c.cellHigh * c.cells as real else c.userChargeVoltage
  }

  /** What battery_init leaves for the later checks, and they keep. */
  ghost predicate Ready(s: Settings, c: Charge) {
    c.dischargeVoltage == DischargeLimit(s.config) && c.dischargeAmps == DischargeAmps(s) &&
    (c.charging || s.config.chargeAtMax ==> c.target == Target(s.config))
  }

  lemma {:induction false} RunKeepsReady(s: Settings, c: Charge, ticks: seq<Tick>)
    requires Ready(s, c)
    ensures Ready(s, Run(s, c, ticks))
    decreases |ticks|
  {
    if ticks != [] {
      RunKeepsReady(s, Checked(s, c, ticks[0]), ticks[1..]);
    }
  }

  lemma InitIsReady(config: Config, before: Charge, x: Sensors)
    ensures Ready(Initial(config), InitialCharge(Initial(config), before, x))
  {
  }

  lemma IdleVoltage(s: Settings, c: Charge)
    requires ChargeInv(s, c) && !c.charging
    ensures var f := s.config; c.voltage == if f.userChargeVoltage >= 0.0 then f.userChargeVoltage else f.cellHigh * f.cells as real
  {
  }

  lemma RunLimits(s: Settings, c: Charge, ticks: seq<Tick>)
    requires Ready(s, c) && ChargeInv(s, c) && Sound(s)
    ensures var d := Run(s, c, ticks);
            var f := s.config;
            d.dischargeVoltage == DischargeLimit(f) && d.dischargeAmps == DischargeAmps(s) &&
            (!d.charging ==> d.voltage == if f.userChargeVoltage >= 0.0 then f.userChargeVoltage else f.cellHigh * f.cells as real)
  {
    RunKeeps(s, c, ticks);
    RunKeepsReady(s, c, ticks);
    if !Run(s, c, ticks).charging {
      IdleVoltage(s, Run(s, c, ticks));
    }
  }

  /** Over every run after battery_init the limits of the discharge stand, and without a charge the voltage is the set one. */
  lemma LimitsStand(config: Config, before: Charge, x: Sensors, ticks: seq<Tick>)
    ensures var s := Initial(config);
            var c := Run(s, InitialCharge(s, before, x), ticks);
            var f := s.config;
            c.dischargeVoltage == DischargeLimit(f) && c.dischargeAmps == DischargeAmps(s) &&
            (!c.charging ==> c.voltage == if f.userChargeVoltage >= 0.0 then f.userChargeVoltage else f.cellHigh * f.cells as real)
  {
    InitEstablishes(config, before, x);
    InitIsReady(config, before, x);
    RunLimits(Initial(config), InitialCharge(Initial(config), before, x), ticks);
  }

  /** No check starts a charge. */
  predicate StaysIdle(s: Settings, c: Charge, ticks: seq<Tick>)
    decreases |ticks|
  {
    !c.charging && (ticks == [] || StaysIdle(s, Checked(s, c, ticks[0]), ticks[1..]))
  }

  lemma {:induction false} IdleLasts(s: Settings, c: Charge, ticks: seq<Tick>)
    requires Ready(s, c) && !c.charging
    ensures StaysIdle(s, c, ticks) <==> forall t | t in ticks :: !Wanted(s, t.sensors)
    decreases |ticks|
  {
    if ticks != [] {
      assert Checked(s, c, ticks[0]).charging <==> Wanted(s, ticks[0].sensors);
      if !Checked(s, c, ticks[0]).charging {
        IdleLasts(s, Checked(s, c, ticks[0]), ticks[1..]);
      }
    }
  }

  /**
    * battery_init starts a charge exactly when a capacity is configured; and in any run after it, a controller that is not
    * charging stays so exactly as long as no check finds a charge wanted.
    */
  lemma IdleUntilWanted(config: Config, before: Charge, x: Sensors, earlier: seq<Tick>, ticks: seq<Tick>)
    ensures var s := Initial(config);
            var first := InitialCharge(s, before, x);
            var c := Run(s, first, earlier);
            (first.charging <==> config.userCapacity >= 1.0) &&
            (!c.charging ==> (StaysIdle(s, c, ticks) <==> forall t | t in ticks :: !Wanted(s, t.sensors)))
  {
    var s := Initial(config);
    var c := Run(s, InitialCharge(s, before, x), earlier);
    InitIsReady(config, before, x);
    RunKeepsReady(s, InitialCharge(s, before, x), earlier);
    if !c.charging {
      IdleLasts(s, c, ticks);
    }
  }

  /** How many checks find the battery drawing less than the current and the inverter above 60 Hz. */
  function Asks(amps: real, ticks: seq<Tick>): nat
    decreases |ticks|
  {
    if ticks == [] then 0 else
    var x := ticks[0].sensors;
    var amps' := if x.temp <= 5.0 then amps / 4.0 else amps;
    (if -x.amps < amps' && x.frequency > 60.0 then 1 else 0) + Asks(amps', ticks[1..])
  }

  /** Steps of a tenth of a volt, up to the maximum and no further. */
  function Ramped(voltage: real, most: real, steps: nat): real {
    if voltage >= most then voltage
    else if voltage + steps as real * 0.1 < most then voltage + steps as real * 0.1
    else most
  }

  lemma RampedStep(voltage: real, most: real, steps: nat)
    ensures Ramped(voltage, most, steps + 1) ==
            Ramped(if voltage >= most then voltage else if voltage + 0.1 > most then most else voltage + 0.1, most, steps)
    ensures Ramped(voltage, most, 0) == voltage
  {
  }

  /** As long as a charge keeps to constant current, its voltage is a ramp of one step for each check that asks for more. */
  lemma {:induction false} VoltageIsRamped(s: Settings, c: Charge, ticks: seq<Tick>)
    requires GoesOn(s, c, ticks) && c.mode == CC && Run(s, c, ticks).mode == CC
    ensures Run(s, c, ticks).voltage == Ramped(c.voltage, s.chargeMaxVoltage, Asks(c.amps, ticks))
    decreases |ticks|
  {
    if ticks != [] {
      var d := Checked(s, c, ticks[0]);
      ChargeEnds(s, c, ticks[0]);
      ChargeGoesOneWay(s, d, ticks[1..]);
      VoltageIsRamped(s, d, ticks[1..]);
      RampedStep(c.voltage, s.chargeMaxVoltage, Asks(d.amps, ticks[1..]));
    } else {
      RampedStep(c.voltage, s.chargeMaxVoltage, 0);
    }
  }

  lemma ConstantCurrentCourse(s: Settings, c: Charge, ticks: seq<Tick>)
    requires c.charging && c.mode == CC && GoesOn(s, c, ticks) && Run(s, c, ticks).mode == CC
    ensures var d := Run(s, c, ticks);
            d.amps == Quartered(c.amps, Colds(ticks)) &&
            d.voltage == Ramped(c.voltage, s.chargeMaxVoltage, Asks(c.amps, ticks))
  {
    ChargeGoesOneWay(s, c, ticks);
    VoltageIsRamped(s, c, ticks);
  }

  /** The current and the voltage that a charge starts with. */
  function FirstAmps(s: Settings): real {
    if s.config.userChargeAmps >= 0.0 then s.config.userChargeAmps else s.config.cRate * s.capacity
  }

  function FirstVoltage(s: Settings): real {
    if s.config.chargeAtMax then s.chargeMaxVoltage else Target(s.config)
  }

  lemma ChargeBegins(s: Settings, c: Charge, t: Tick)
    requires Ready(s, c) && !c.charging && Wanted(s, t.sensors)
    ensures var d := Checked(s, c, t);
            d.charging && d.mode == CC && d.startTemp == t.sensors.temp && d.target == Target(s.config) &&
            d.amps == FirstAmps(s) && d.voltage == FirstVoltage(s)
  {
  }

  /**
    * One charge, from the check that starts it: how long it keeps to constant current, and its current and voltage as long
    * as it does, in terms of the configuration and the sensors alone.
    */
  lemma OneCharge(s: Settings, c: Charge, t: Tick, ticks: seq<Tick>)
    requires Ready(s, c) && !c.charging && Wanted(s, t.sensors)
    ensures var start := Checked(s, c, t);
            var d := Run(s, start, ticks);
            var cc := GoesOn(s, start, ticks) && d.mode == CC;
            (cc <==> forall u | u in ticks ::
               Healthy(t.sensors.temp, u.sensors.temp) && u.sensors.voltage <= Target(s.config) && u.sensors.cellMax < s.cellMax) &&
            (cc ==> d.amps == Quartered(FirstAmps(s), Colds(ticks)) &&
                    d.voltage == Ramped(FirstVoltage(s), s.chargeMaxVoltage, Asks(FirstAmps(s), ticks)))
  {
    var start := Checked(s, c, t);
    ChargeBegins(s, c, t);
    ConstantCurrentLasts(s, start, ticks);
    if GoesOn(s, start, ticks) && Run(s, start, ticks).mode == CC {
      ConstantCurrentCourse(s, start, ticks);
    }
  }

  /**
    * The check that finds the battery healthy and above its target turns to constant voltage, for two hours from the clock
    * reading it takes; the voltage is the set one, and the charge goes on exactly as long as all is well.
    */
  lemma TwoHoursOfConstantVoltage(s: Settings, c: Charge, t: Tick, ticks: seq<Tick>)
    requires c.charging && c.mode == CC && Healthy(c.startTemp, t.sensors.temp)
    requires t.sensors.voltage > c.target || t.sensors.cellMax >= s.cellMax
    ensures var start := Checked(s, c, t);
            var f := s.config;
            (GoesOn(s, start, ticks) <==>
               forall u | u in ticks :: Healthy(c.startTemp, u.sensors.temp) && u.now < t.later + 2 * 3600) &&
            (GoesOn(s, start, ticks) ==>
               Run(s, start, ticks).mode == CV && Run(s, start, ticks).voltage ==
                 if f.userChargeVoltage < 0.0 then f.cellHigh * f.cells as real else f.userChargeVoltage)
  {
    var start := Checked(s, c, t);
    ChargeEnds(s, c, t);
    ConstantVoltageLasts(s, start, ticks);
    if GoesOn(s, start, ticks) {
      ChargeGoesOneWay(s, start, ticks);
    }
  }

  /** A battery of which only the chemistry is known: its voltages, and the rates of charge and discharge. */
  lemma DefaultsOfChemistry(c: Config)
    requires c.cells < 0 && c.cellLow < 0.0 && c.cellHigh < 0.0 && c.userChargeVoltage < 0.0 && c.userDischargeVoltage < 0.0
    requires c.cRate < 0.0 && c.eRate < 0.0 && c.userCapacity == 100.0 && c.userChargeAmps < 0.0 && c.userDischargeAmps < 0.0
    ensures var s := Initial(c);
            (SetVoltage(s), DischargeLimit(s.config), s.chargeMaxVoltage) ==
              (if c.chemistry == 2 then (54.4, 40.0, 58.4) else if c.chemistry == 3 then (62.7, 39.82, 62.7) else (58.8, 42.0, 58.8)) &&
            (s.cellMin, s.cellMax) ==
              (if c.chemistry == 2 then (2.5, 3.65) else if c.chemistry == 3 then (1.8, 2.85) else (2.8, 4.2)) &&
            (FirstAmps(s), DischargeAmps(s)) ==
              (if c.chemistry == 2 then (100.0, 100.0) else if c.chemistry == 3 then (100.0, 1000.0) else (70.0, 100.0))
  {
  }
}
