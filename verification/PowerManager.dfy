/** The power manager's battery readings. */
module PowerManagers {
  import opened Bytes
  import opened Battery

  class PowerManager {
    const config: Config
    var batteryPercent: byte
    var smoothedPercent: real
    var batterySampleCount: byte
    var isCharging: bool

    function Abstract(): Gauge
      reads this
    {
      Gauge(smoothedPercent, batterySampleCount, batteryPercent, isCharging)
    }

    ghost predicate Valid()
      reads this
    {
      Sane(config) && InRange(Abstract())
    }

    constructor (config: Config)
      requires Sane(config)
      ensures Valid() && this.config == config && Abstract() == POWER_ON
      ensures batteryPercent == 100 && smoothedPercent == 100.0 && batterySampleCount == 0 && !isCharging
    {
      this.config := config;
      batteryPercent, smoothedPercent, batterySampleCount, isCharging := 100, 100.0, 0, false;
    }

    method VoltageToPercent(voltageMv: u32) returns (percent: byte)
      requires Descending(config.table)
      ensures percent == Percent(config.table, voltageMv)
    {
      percent := 0;
      var t := config.table;
      if voltageMv >= t[0].voltageMv {
        return 100;
      }
      if voltageMv <= t[|t| - 1].voltageMv {
        return 0;
      }
      PercentInRange(t, voltageMv);
      ghost var k := Below(t, voltageMv, 0);
      for i := 1 to |t|
        invariant forall j :: 0 <= j < i ==> t[j].voltageMv >= voltageMv
        invariant k >= i - 1
      {
        var higher, lower := t[i - 1], t[i];
        if voltageMv > lower.voltageMv {
          if voltageMv >= higher.voltageMv {
            PercentHitsEntries(t, i - 1);
            return higher.percent;
          }
          var voltageRange := higher.voltageMv - lower.voltageMv;
          var percentRange := higher.percent - lower.percent;
          var voltageOffset := voltageMv - lower.voltageMv;
          if voltageRange == 0 {
            return lower.percent;
          }
          assert k == i;
          LineBounds(higher, lower, voltageMv);
          var interpolatedPercent := lower.percent + (percentRange * voltageOffset) / voltageRange;
          if interpolatedPercent > 100 {
            interpolatedPercent := 100;
          }
          return interpolatedPercent;
        }
      }
      assert false;
    }

    method UpdateBatteryStatus(voltageMv: u32, charging: bool)
      requires Valid()
      modifies this
      ensures Valid() && Abstract() == Update(old(Abstract()), config, voltageMv, charging)
    {
      UpdateInRange(Abstract(), config, Reading(voltageMv, charging));
      hide Percent, Times;
      if voltageMv < config.externalBelowMv {
        batteryPercent, smoothedPercent, isCharging := 100, 100.0, false;
        return;
      }
      var rawPercent := VoltageToPercent(voltageMv);
      if batterySampleCount < 255 {
        batterySampleCount := batterySampleCount + 1;
      }
      if batterySampleCount <= config.stableAfter {
        var initAlpha := 1.0 / batterySampleCount as real;
        smoothedPercent := Times(initAlpha, rawPercent as real) + Times(1.0 - initAlpha, smoothedPercent);
      } else {
        smoothedPercent := Times(config.alpha, rawPercent as real) + Times(1.0 - config.alpha, smoothedPercent);
      }
      var smoothedInt := (smoothedPercent + 0.5).Floor;
      if smoothedInt > 100 {
        smoothedInt := 100;
      }
      var delta := smoothedInt - batteryPercent;
      if delta < 0 {
        delta := -delta;
      }
      if delta >= config.hysteresis {
        batteryPercent := smoothedInt;
      }
      isCharging := charging;
      if isCharging && smoothedInt > batteryPercent {
        batteryPercent := smoothedInt;
      }
    }
  }
}
