/** Channel plans for the concentrator, the IF offsets programmed from them, and the slot formula that picks
    the frequency. */
module Regions {
  datatype Band = Band(startHz: int, endHz: int, defaultHz: int)

  const BANDS: map<string, Band> :=
    map["US" := Band(902_000_000, 928_000_000, 906_875_000),
        "EU_868" := Band(863_000_000, 870_000_000, 869_525_000),
        "ANZ" := Band(915_000_000, 928_000_000, 919_875_000),
        "IN" := Band(865_000_000, 867_000_000, 865_875_000),
        "KR" := Band(920_000_000, 923_000_000, 922_875_000),
        "SG_923" := Band(917_000_000, 925_000_000, 917_875_000)]

  const DEFAULTS_HZ: set<int> := {906_875_000, 869_525_000, 919_875_000, 865_875_000, 922_875_000, 917_875_000}
}

module Concentrator {
  import opened Numbers
  import opened Regions

  datatype Channel = Channel(frequencyHz: int, bandwidthKhz: int, spreadingFactor: int, enabled: bool)

  datatype Plan = Plan(multiSf: seq<Channel>, singleSf: Channel, radio0Hz: int, radio1Hz: int)

  datatype Outcome = Accepted(plan: Plan) | UnsupportedRegion | OutsideBand

  const NARROW_BAND_REGIONS := {"EU_868"}

  function MultiSf(frequencyHz: int): Channel { Channel(frequencyHz, 125, 0, true) }

  function Disabled(frequencyHz: int): Channel { Channel(frequencyHz, 125, 0, false) }

  ghost predicate Evenly(channels: seq<Channel>, baseHz: int, stepHz: int) {
    forall i :: 0 <= i < |channels| ==> channels[i] == Channel(baseHz + i * stepHz, 125, 0, true)
  }

  /** `count` channels at a fixed step, appended one by one. */
  method Spread(baseHz: int, stepHz: int, count: nat) returns (channels: seq<Channel>)
    ensures |channels| == count && Evenly(channels, baseHz, stepHz)
  {
    channels := [];
    for i := 0 to count
      invariant |channels| == i && Evenly(channels, baseHz, stepHz)
    {
      channels := channels + [MultiSf(baseHz + i * stepHz)];
    }
  }

  /** Fills a plan up to eight entries with disabled ones. */
  method Pad(enabled: seq<Channel>, frequencyHz: int) returns (channels: seq<Channel>)
    requires |enabled| <= 8
    ensures |channels| == 8 && enabled <= channels
    ensures forall i :: |enabled| <= i < 8 ==> channels[i] == Disabled(frequencyHz)
  {
    channels := enabled;
    for i := |enabled| to 8
      invariant |channels| == i && enabled <= channels
      invariant forall j :: |enabled| <= j < i ==> channels[j] == Disabled(frequencyHz)
    {
      channels := channels + [Disabled(frequencyHz)];
    }
  }

  /** The chain a multi-SF channel is assigned to, and the offset programmed for it. */
  function RfChain(plan: Plan, ch: Channel): nat {
    if ch.frequencyHz <= plan.radio0Hz + 500_000 then 0 else 1
  }

  function Center(plan: Plan, chain: nat): int {
    if chain == 0 then plan.radio0Hz else plan.radio1Hz
  }

  /** Half the bandwidth around the IF offset stays inside the radio's 1.6 MHz. */
  ghost predicate Reachable(plan: Plan, ch: Channel) {
    var offset := ch.frequencyHz - Center(plan, RfChain(plan, ch));
    -800_000 <= offset - 62_500 && offset + 62_500 <= 800_000
  }

  ghost predicate AllReachable(plan: Plan) {
    |plan.multiSf| == 8 && forall i :: 0 <= i < 8 && plan.multiSf[i].enabled ==> Reachable(plan, plan.multiSf[i])
  }

  /** Two channels around a frequency that both radios are tuned to, six disabled entries. */
  ghost predicate Narrow(plan: Plan, frequencyHz: int) {
    && |plan.multiSf| == 8
    && plan.multiSf[0] == Channel(frequencyHz - 62_500, 125, 0, true)
    && plan.multiSf[1] == Channel(frequencyHz + 62_500, 125, 0, true)
    && (forall i :: 2 <= i < 8 ==> plan.multiSf[i] == Channel(frequencyHz, 125, 0, false))
    && plan.radio0Hz == frequencyHz && plan.radio1Hz == frequencyHz
  }

  /** Eight channels around a frequency that the first radio is tuned to. */
  ghost predicate Centered(plan: Plan, frequencyHz: int) {
    && |plan.multiSf| == 8 && Evenly(plan.multiSf, frequencyHz - 700_000, 200_000)
    && plan.radio0Hz == frequencyHz && plan.radio1Hz == frequencyHz + 800_000
  }

  /** The LongFast preset of a region: the four wide-band ones are one plan shifted to the region's default; KR
      spreads six channels around its own centre, and EU_868 uses two. */
  ghost predicate IsPreset(region: string, plan: Plan)
    requires region in BANDS
  {
    var defaultHz := BANDS[region].defaultHz;
    && |plan.multiSf| == 8 && plan.singleSf == Channel(defaultHz, 250, 11, true)
    && if region == "EU_868" then Narrow(plan, defaultHz)
       else if region == "KR" then
         && Evenly(plan.multiSf[..6], defaultHz - 1_075_000, 200_000)
         && (forall i :: 6 <= i < 8 ==> plan.multiSf[i] == Channel(defaultHz - 475_000, 125, 0, false))
         && plan.radio0Hz == defaultHz - 475_000 && plan.radio1Hz == defaultHz - 1_475_000
       else
         && Evenly(plan.multiSf, defaultHz - 675_000, 200_000)
         && plan.radio0Hz == defaultHz - 75_000 && plan.radio1Hz == defaultHz + 525_000
  }

  method BuildCenteredPlan(centerHz: int, spreadingFactor: int, bandwidthKhz: real) returns (plan: Plan)
    ensures AllReachable(plan) && Centered(plan, centerHz)
    ensures plan.singleSf == Channel(centerHz, Truncate(bandwidthKhz), spreadingFactor, true)
  {
    var channels := Spread(centerHz - 700_000, 200_000, 8);
    plan := Plan(channels, Channel(centerHz, Truncate(bandwidthKhz), spreadingFactor, true),
                 centerHz, centerHz + 800_000);
  }

  method BuildNarrowPlan(centerHz: int, spreadingFactor: int, bandwidthKhz: real) returns (plan: Plan)
    ensures AllReachable(plan) && Narrow(plan, centerHz)
    ensures plan.singleSf == Channel(centerHz, Truncate(bandwidthKhz), spreadingFactor, true)
  {
    var channels := Pad([MultiSf(centerHz - 62_500), MultiSf(centerHz + 62_500)], centerHz);
    plan := Plan(channels, Channel(centerHz, Truncate(bandwidthKhz), spreadingFactor, true), centerHz, centerHz);
  }

  method BuildWideBandPlan(primaryHz: int, radio0Hz: int, radio1Hz: int, baseHz: int) returns (plan: Plan)
    ensures |plan.multiSf| == 8 && Evenly(plan.multiSf, baseHz, 200_000)
    ensures plan.singleSf == Channel(primaryHz, 250, 11, true)
    ensures plan.radio0Hz == radio0Hz && plan.radio1Hz == radio1Hz
  {
    var channels := Spread(baseHz, 200_000, 8);
    plan := Plan(channels, Channel(primaryHz, 250, 11, true), radio0Hz, radio1Hz);
  }

  /** Every preset is reachable and listens within 475 kHz above its first radio. */
  method ForRegion(region: string) returns (outcome: Outcome)
    ensures region !in BANDS ==> outcome == UnsupportedRegion
    ensures region in BANDS ==>
            && outcome.Accepted? && AllReachable(outcome.plan) && IsPreset(region, outcome.plan)
            && 0 <= outcome.plan.singleSf.frequencyHz - outcome.plan.radio0Hz <= 475_000
  {
    if region !in BANDS {
      return UnsupportedRegion;
    }
    var plan: Plan;
    match region {
      case "US" => plan := BuildWideBandPlan(906_875_000, 906_800_000, 907_400_000, 906_200_000);
      case "ANZ" => plan := BuildWideBandPlan(919_875_000, 919_800_000, 920_400_000, 919_200_000);
      case "IN" => plan := BuildWideBandPlan(865_875_000, 865_800_000, 866_400_000, 865_200_000);
      case "SG_923" => plan := BuildWideBandPlan(917_875_000, 917_800_000, 918_400_000, 917_200_000);
      case "KR" =>
        var spread := Spread(921_800_000, 200_000, 6);
        var channels := Pad(spread, 922_400_000);
        plan := Plan(channels, Channel(922_875_000, 250, 11, true), 922_400_000, 921_400_000);
      case _ =>
        var channels := Pad([MultiSf(869_462_500), MultiSf(869_587_500)], 869_525_000);
        plan := Plan(channels, Channel(869_525_000, 250, 11, true), 869_525_000, 869_525_000);
    }
    outcome := Accepted(plan);
  }

  predicate InBand(region: string, frequencyHz: int)
    requires region in BANDS
  {
    BANDS[region].startHz <= frequencyHz <= BANDS[region].endHz
  }

  /** Every accepted configuration yields eight reachable channels and a single-SF channel with the requested
      spreading factor and bandwidth; for a named region its frequency is in the band, and it is the requested
      one unless that is some other region's default. */
  method FromRadioConfig(region: string, frequencyMhz: real, spreadingFactor: int, bandwidthKhz: real)
    returns (outcome: Outcome)
    ensures outcome == UnsupportedRegion <==> region != "" && region !in BANDS
    ensures region in BANDS ==>
            var frequencyHz := Truncate(frequencyMhz * 1_000_000.0);
            (outcome == OutsideBand <==>
             && !(BANDS[region].startHz <= frequencyHz <= BANDS[region].endHz)
             && forall other :: other in BANDS ==> frequencyHz != BANDS[other].defaultHz)
    ensures outcome.Accepted? ==>
            && AllReachable(outcome.plan)
            && outcome.plan.singleSf.spreadingFactor == spreadingFactor && outcome.plan.singleSf.enabled
            && outcome.plan.singleSf.bandwidthKhz == Truncate(bandwidthKhz)
    ensures outcome.Accepted? ==>
            var frequencyHz := Truncate(frequencyMhz * 1_000_000.0);
            if region == "" || BANDS[region].startHz <= frequencyHz <= BANDS[region].endHz
            then outcome.plan.singleSf.frequencyHz == frequencyHz
            else outcome.plan.singleSf.frequencyHz == BANDS[region].defaultHz
    ensures outcome.Accepted? && region != "" ==> InBand(region, outcome.plan.singleSf.frequencyHz)
    ensures outcome.Accepted? ==>
            var frequencyHz := Truncate(frequencyMhz * 1_000_000.0);
            if region in BANDS && frequencyHz == BANDS[region].defaultHz
               && spreadingFactor == 11 && Truncate(bandwidthKhz) == 250
            then IsPreset(region, outcome.plan)
            else if region == "EU_868" then Narrow(outcome.plan, outcome.plan.singleSf.frequencyHz)
            else Centered(outcome.plan, outcome.plan.singleSf.frequencyHz)
  {
    var frequencyHz := Truncate(frequencyMhz * 1_000_000.0);
    if region == "" {
      var plan := BuildCenteredPlan(frequencyHz, spreadingFactor, bandwidthKhz);
      return Accepted(plan);
    }
    if region !in BANDS {
      return UnsupportedRegion;
    }
    var defaultHz := BANDS[region].defaultHz;
    DefaultsInBand(region);
    DefaultsAre(frequencyHz);
    var isLongFast := spreadingFactor == 11 && Truncate(bandwidthKhz) == 250;
    if frequencyHz == defaultHz && isLongFast {
      outcome := ForRegion(region);
      return;
    }
    if frequencyHz != defaultHz {
      if !InBand(region, frequencyHz) {
        if frequencyHz in DEFAULTS_HZ {
          frequencyHz := defaultHz;
        } else {
          return OutsideBand;
        }
      }
    }
    if region in NARROW_BAND_REGIONS {
      var plan := BuildNarrowPlan(frequencyHz, spreadingFactor, bandwidthKhz);
      return Accepted(plan);
    }
    var plan := BuildCenteredPlan(frequencyHz, spreadingFactor, bandwidthKhz);
    return Accepted(plan);
  }

  lemma DefaultsAre(frequencyHz: int)
    ensures frequencyHz in DEFAULTS_HZ <==> exists region :: region in BANDS && BANDS[region].defaultHz == frequencyHz
  {
    assert "US" in BANDS && "EU_868" in BANDS && "ANZ" in BANDS && "IN" in BANDS && "KR" in BANDS && "SG_923" in BANDS;
  }

  lemma DefaultsInBand(region: string)
    requires region in BANDS
    ensures InBand(region, BANDS[region].defaultHz) && BANDS[region].defaultHz in DEFAULTS_HZ
  {
  }

  datatype IfConfig = IfConfig(enable: bool, rfChain: nat, offsetHz: int)

  /** Chain centre plus programmed offset is the channel's frequency, and the offset of an enabled, reachable
      channel keeps its 125 kHz inside the radio's range. */
  ghost predicate Programs(plan: Plan, ch: Channel, conf: IfConfig) {
    && conf.enable == ch.enabled
    && conf.rfChain <= 1 && (conf.rfChain == 0 <==> ch.frequencyHz <= plan.radio0Hz + 500_000)
    && (if conf.rfChain == 0 then plan.radio0Hz else plan.radio1Hz) + conf.offsetHz == ch.frequencyHz
    && (ch.enabled && Reachable(plan, ch) ==> -737_500 <= conf.offsetHz <= 737_500)
  }

  const BANDWIDTH_CODES: map<int, int> := map[125 := 0x04, 250 := 0x05, 500 := 0x06]

  /** The bandwidth a HAL code stands for. */
  function BandwidthOf(code: int): int { if code == 0x04 then 125 else if code == 0x06 then 500 else 250 }

  datatype SingleConfig = SingleConfig(conf: IfConfig, bandwidthCode: int, dataRate: int)

  method ConfigureIfChannels(plan: Plan) returns (multi: seq<IfConfig>, single: SingleConfig)
    ensures |multi| == if |plan.multiSf| < 8 then |plan.multiSf| else 8
    ensures forall i :: 0 <= i < |multi| ==> Programs(plan, plan.multiSf[i], multi[i])
    ensures single.conf.rfChain == 0 && plan.radio0Hz + single.conf.offsetHz == plan.singleSf.frequencyHz
    ensures single.conf.enable == plan.singleSf.enabled && single.dataRate == plan.singleSf.spreadingFactor
    ensures BandwidthOf(single.bandwidthCode)
            == if plan.singleSf.bandwidthKhz in {125, 250, 500} then plan.singleSf.bandwidthKhz else 250
    ensures single.bandwidthCode in {0x04, 0x05, 0x06}
  {
    multi := [];
    var count := if |plan.multiSf| < 8 then |plan.multiSf| else 8;
    for i := 0 to count
      invariant |multi| == i
      invariant forall j :: 0 <= j < i ==> Programs(plan, plan.multiSf[j], multi[j])
    {
      var ch := plan.multiSf[i];
      var rfChain := if ch.frequencyHz <= plan.radio0Hz + 500_000 then 0 else 1;
      var center := if rfChain == 0 then plan.radio0Hz else plan.radio1Hz;
      multi := multi + [IfConfig(ch.enabled, rfChain, ch.frequencyHz - center)];
    }
    var ch := plan.singleSf;
    var code := if ch.bandwidthKhz in BANDWIDTH_CODES then BANDWIDTH_CODES[ch.bandwidthKhz] else 0x05;
    single := SingleConfig(IfConfig(ch.enabled, 0, ch.frequencyHz - plan.radio0Hz), code, ch.spreadingFactor);
  }
}

module Slots {
  import opened Options
  import opened Regions
  import Concentrator

  predicate SlotBandwidth(bwKhz: int) { bwKhz == 125 || bwKhz == 250 || bwKhz == 500 }

  /** The dashboard card's own copy of the bands, in MHz. */
  const CARD_BANDS: map<string, (real, real)> :=
    map["US" := (902.0, 928.0), "EU_868" := (863.0, 870.0), "ANZ" := (915.0, 928.0), "IN" := (865.0, 867.0),
        "KR" := (920.0, 923.0), "SG_923" := (917.0, 925.0)]

  /** The configuration loader's copy of their starts. */
  const FREQ_START: map<string, real> :=
    map["US" := 902.0, "EU_868" := 863.0, "ANZ" := 915.0, "IN" := 865.0, "KR" := 920.0, "SG_923" := 917.0]

  predicate Known(region: string) { region in BANDS && region in CARD_BANDS && region in FREQ_START }

  /** The three tables that are kept by hand know the same regions and give them the same bands. */
  lemma TablesAgree(region: string)
    ensures region in CARD_BANDS <==> region in BANDS
    ensures region in FREQ_START <==> region in BANDS
    ensures Known(region) ==>
            && FREQ_START[region] == StartMhz(region)
            && StartMhz(region) * 1_000_000.0 == BANDS[region].startHz as real
            && EndMhz(region) * 1_000_000.0 == BANDS[region].endHz as real
  {
  }

  lemma CardIsKnown(region: string)
    requires region in CARD_BANDS
    ensures Known(region) && FREQ_START[region] == StartMhz(region)
  {
    TablesAgree(region);
  }

  function StartMhz(region: string): real
    requires region in CARD_BANDS
  {
    CARD_BANDS[region].0
  }

  function EndMhz(region: string): real
    requires region in CARD_BANDS
  {
    CARD_BANDS[region].1
  }

  function Spacing(bwKhz: real): real { bwKhz / 1000.0 }

  /** The n-th point of a grid that starts half a spacing into the band, and the position of a frequency on it. */
  function GridPoint(start: real, spacing: real, n: int): real {
    start + spacing / 2.0 + (n - 1) as real * spacing
  }

  function GridPosition(freq: real, start: real, spacing: real): real
    requires spacing > 0.0
  {
    (freq - start - spacing / 2.0) / spacing + 1.0
  }

  /** The Meshtastic slot formula, in MHz. */
  function Formula(startMhz: real, bwKhz: real, slot: int): real {
    GridPoint(startMhz, Spacing(bwKhz), slot)
  }

  /** toFixed(4): nearest four-decimal number, ties upwards. */
  function ToFixed4(x: real): real { (x * 10_000.0 + 0.5).Floor as real / 10_000.0 }

  /** r is k ten-thousandths, and no more than half of one away from x. */
  ghost predicate IsNearest4(r: real, x: real, k: int) {
    r == k as real / 10_000.0 && -0.5 <= k as real - x * 10_000.0 <= 0.5
  }

  lemma ToFixed4IsNearest(x: real)
    ensures exists k: int :: IsNearest4(ToFixed4(x), x, k) && k as real - x * 10_000.0 > -0.5
  {
    assert IsNearest4(ToFixed4(x), x, (x * 10_000.0 + 0.5).Floor);
  }

  /** round(x, 4): nearest four-decimal number, ties to even. */
  function Round4(x: real): real {
    var k := (x * 10_000.0).Floor;
    var rest := x * 10_000.0 - k as real;
    (if rest < 0.5 || (rest == 0.5 && k % 2 == 0) then k else k + 1) as real / 10_000.0
  }

  lemma Round4IsNearest(x: real)
    ensures exists k: int ::
              IsNearest4(Round4(x), x, k)
              && (k as real - x * 10_000.0 == 0.5 || k as real - x * 10_000.0 == -0.5 ==> k % 2 == 0)
  {
    var k := (x * 10_000.0).Floor;
    var rest := x * 10_000.0 - k as real;
    var n := if rest < 0.5 || (rest == 0.5 && k % 2 == 0) then k else k + 1;
    assert IsNearest4(Round4(x), x, n);
  }

  function NumSlots(region: string, bwKhz: int): int
    requires region in CARD_BANDS && SlotBandwidth(bwKhz)
  {
    ((EndMhz(region) - StartMhz(region)) / Spacing(bwKhz as real)).Floor
  }

  function SlotToFreq(slot: int, bwKhz: int, region: string): Option<real> {
    if region !in CARD_BANDS || !SlotBandwidth(bwKhz) then None
    else if slot < 1 || slot > NumSlots(region, bwKhz) then None
    else Some(ToFixed4(Formula(StartMhz(region), bwKhz as real, slot)))
  }

  function RawSlot(freq: real, bwKhz: int, region: string): real
    requires region in CARD_BANDS && SlotBandwidth(bwKhz)
  {
    GridPosition(freq, StartMhz(region), Spacing(bwKhz as real))
  }

  function Abs(x: real): (r: real)
    ensures r >= 0.0 && (r == x || r == -x)
  {
    if x < 0.0 then -x else x
  }

  function Distance(x: real, y: real): real { Abs(x - y) }

  function FreqToSlot(freq: real, bwKhz: int, region: string): Option<int> {
    if region !in CARD_BANDS || !SlotBandwidth(bwKhz) then None
    else
      var raw := RawSlot(freq, bwKhz, region);
      var n := (raw + 0.5).Floor;
      if 1 <= n <= NumSlots(region, bwKhz) && Distance(raw, n as real) < 0.001 then Some(n) else None
  }

  /** A frequency has slot n exactly when n is a slot of the band and the raw slot number is within a thousandth of
      it. */
  lemma FreqToSlotIff(freq: real, bwKhz: int, region: string, n: int)
    requires region in CARD_BANDS && SlotBandwidth(bwKhz)
    ensures FreqToSlot(freq, bwKhz, region) == Some(n) <==>
            && 1 <= n <= NumSlots(region, bwKhz)
            && -0.001 < RawSlot(freq, bwKhz, region) - n as real < 0.001
  {
    NearestWhole(RawSlot(freq, bwKhz, region), n);
  }

  lemma NearestWhole(x: real, n: int)
    ensures -0.001 < x - n as real < 0.001 ==> (x + 0.5).Floor == n
    ensures Distance(x, n as real) < 0.001 <==> -0.001 < x - n as real < 0.001
  {
  }

  lemma FloorOfWhole(n: int)
    ensures (n as real + 0.5).Floor == n && (n as real).Floor == n
  {
  }

  lemma RawOfFormula(region: string, bwKhz: int, slot: int)
    requires Known(region) && SlotBandwidth(bwKhz)
    ensures RawSlot(Formula(StartMhz(region), bwKhz as real, slot), bwKhz, region) == slot as real
  {
    if bwKhz == 125 {
      assert Spacing(125.0) == 0.125;
    } else if bwKhz == 250 {
      assert Spacing(250.0) == 0.25;
    } else {
      assert Spacing(500.0) == 0.5;
    }
  }

  lemma ExactIsKept(x: real, k: int)
    requires x * 10_000.0 == k as real
    ensures ToFixed4(x) == x && Round4(x) == x
  {
    FloorOfWhole(k);
    assert x == k as real / 10_000.0;
    assert x * 10_000.0 + 0.5 == k as real + 0.5;
  }

  lemma BandWidths(region: string)
    requires region in BANDS
    ensures BANDS[region].startHz % 1_000_000 == 0
    ensures BANDS[region].endHz - BANDS[region].startHz
            in {26_000_000, 7_000_000, 13_000_000, 2_000_000, 3_000_000, 8_000_000}
  {
  }

  lemma WholeSlots(width: int, bwKhz: int)
    requires width in {26_000_000, 7_000_000, 13_000_000, 2_000_000, 3_000_000, 8_000_000} && SlotBandwidth(bwKhz)
    ensures (width as real / 1_000_000.0 / Spacing(bwKhz as real)).Floor * bwKhz * 1000 == width
  {
    var slots := (width as real / 1_000_000.0 / Spacing(bwKhz as real)).Floor;
    if bwKhz == 125 {
      assert slots * 125_000 == width;
    } else if bwKhz == 250 {
      assert slots * 250_000 == width;
    } else {
      assert slots * 500_000 == width;
    }
  }

  /** The bands start and end on whole megahertz and hold a whole number of slots. */
  lemma BandIsWhole(region: string, bwKhz: int)
    requires Known(region) && SlotBandwidth(bwKhz)
    ensures BANDS[region].startHz % 1_000_000 == 0 && BANDS[region].startHz < BANDS[region].endHz
    ensures NumSlots(region, bwKhz) * bwKhz * 1000 == BANDS[region].endHz - BANDS[region].startHz
  {
    BandWidths(region);
    TablesAgree(region);
    WholeSlots(BANDS[region].endHz - BANDS[region].startHz, bwKhz);
    assert EndMhz(region) - StartMhz(region)
        == (BANDS[region].endHz - BANDS[region].startHz) as real / 1_000_000.0;
  }

  /** On the slot bandwidths the formula lands on a whole number of hertz and of hundred-hertz steps, so neither
      rounding changes it. */
  function FormulaHz(region: string, bwKhz: int, slot: int): int
    requires region in BANDS
  {
    BANDS[region].startHz + 500 * bwKhz + (slot - 1) * bwKhz * 1000
  }

  lemma FormulaIsExact(region: string, bwKhz: int, slot: int)
    requires Known(region) && SlotBandwidth(bwKhz)
    ensures Formula(StartMhz(region), bwKhz as real, slot) * 1_000_000.0 == FormulaHz(region, bwKhz, slot) as real
    ensures ToFixed4(Formula(StartMhz(region), bwKhz as real, slot)) == Formula(StartMhz(region), bwKhz as real, slot)
    ensures Round4(Formula(StartMhz(region), bwKhz as real, slot)) == Formula(StartMhz(region), bwKhz as real, slot)
  {
    BandIsWhole(region, bwKhz);
    var x := Formula(StartMhz(region), bwKhz as real, slot);
    var hz := FormulaHz(region, bwKhz, slot);
    if bwKhz == 125 {
      assert Spacing(125.0) == 0.125;
    } else if bwKhz == 250 {
      assert Spacing(250.0) == 0.25;
    } else {
      assert Spacing(500.0) == 0.5;
    }
    assert x * 1_000_000.0 == hz as real;
    HundredHertz(BANDS[region].startHz, bwKhz, slot);
    ExactIsKept(x, hz / 100);
  }

  lemma HundredHertz(startHz: int, bwKhz: int, slot: int)
    requires startHz % 1_000_000 == 0
    ensures (startHz + 500 * bwKhz + (slot - 1) * bwKhz * 1000) % 100 == 0
  {
    var m := startHz / 1_000_000;
    assert startHz + 500 * bwKhz + (slot - 1) * bwKhz * 1000
        == 100 * (10_000 * m + 5 * bwKhz + (slot - 1) * bwKhz * 10);
  }

  /** Slot to frequency and back is the identity on every valid slot. */
  lemma SlotRoundTrip(slot: int, bwKhz: int, region: string)
    requires SlotToFreq(slot, bwKhz, region).Some?
    ensures FreqToSlot(SlotToFreq(slot, bwKhz, region).value, bwKhz, region) == Some(slot)
  {
    CardIsKnown(region);
    FormulaIsExact(region, bwKhz, slot);
    RawOfFormula(region, bwKhz, slot);
    FloorOfWhole(slot);
  }

  /** Frequency to slot and back moves the frequency by less than a thousandth of the spacing, and not at all
      exactly when it lies on the slot grid. */
  lemma FreqRoundTrip(freq: real, bwKhz: int, region: string)
    requires FreqToSlot(freq, bwKhz, region).Some?
    ensures var slot := FreqToSlot(freq, bwKhz, region).value;
            var back := SlotToFreq(slot, bwKhz, region);
            && back.Some? && Distance(back.value, freq) < 0.001 * Spacing(bwKhz as real)
            && (back.value == freq <==> RawSlot(freq, bwKhz, region) == slot as real)
  {
    var slot := FreqToSlot(freq, bwKhz, region).value;
    CardIsKnown(region);
    FoundSlotIsNear(freq, bwKhz, region);
    ValidSlotHasFormula(slot, bwKhz, region);
    SlotDistance(freq, bwKhz, region, slot);
  }

  /** The same in terms of the slot formula. */
  lemma SlotDistance(freq: real, bwKhz: int, region: string, n: int)
    requires region in CARD_BANDS && SlotBandwidth(bwKhz)
    ensures var point, spacing := Formula(StartMhz(region), bwKhz as real, n), Spacing(bwKhz as real);
            && (Distance(RawSlot(freq, bwKhz, region), n as real) < 0.001 <==>
                Distance(point, freq) < 0.001 * spacing)
            && (RawSlot(freq, bwKhz, region) == n as real <==> point == freq)
  {
    GridDistance(freq, StartMhz(region), Spacing(bwKhz as real), n);
  }

  lemma FoundSlotIsNear(freq: real, bwKhz: int, region: string)
    requires FreqToSlot(freq, bwKhz, region).Some?
    ensures region in CARD_BANDS && SlotBandwidth(bwKhz)
    ensures var slot := FreqToSlot(freq, bwKhz, region).value;
            1 <= slot <= NumSlots(region, bwKhz) && Distance(RawSlot(freq, bwKhz, region), slot as real) < 0.001
  {
  }

  lemma ValidSlotHasFormula(slot: int, bwKhz: int, region: string)
    requires Known(region) && SlotBandwidth(bwKhz) && 1 <= slot <= NumSlots(region, bwKhz)
    ensures SlotToFreq(slot, bwKhz, region) == Some(Formula(StartMhz(region), bwKhz as real, slot))
  {
    FormulaIsExact(region, bwKhz, slot);
  }

  /** A frequency is off the n-th grid point by the fraction of the spacing that its raw slot number is off n. */
  lemma GridDistance(freq: real, start: real, spacing: real, n: int)
    requires spacing > 0.0
    ensures var raw, point := GridPosition(freq, start, spacing), GridPoint(start, spacing, n);
            && (Distance(raw, n as real) < 0.001 <==> Distance(point, freq) < 0.001 * spacing)
            && (raw == n as real <==> point == freq)
  {
    var d := freq - start - spacing / 2.0;
    var q, m := d / spacing, (n - 1) as real;
    assert d == q * spacing;
    ScaleDifference(q, m, spacing);
    ScaleAbs(q - m, spacing, 0.001);
    var point := start + spacing / 2.0 + m * spacing;
    assert freq - point == (q - m) * spacing;
    assert q + 1.0 - n as real == q - m;
    AbsSymmetric(freq - point);
  }

  lemma AbsSymmetric(x: real)
    ensures Abs(-x) == Abs(x)
  {
  }

  lemma ScaleDifference(q: real, m: real, k: real)
    ensures q * k - m * k == (q - m) * k
  {
  }

  lemma ScaleAbs(x: real, k: real, tolerance: real)
    requires k > 0.0
    ensures Abs(x) < tolerance <==> Abs(x * k) < tolerance * k
    ensures x == 0.0 <==> x * k == 0.0
  {
    assert x < 0.0 <==> x * k < 0.0;
    if x < 0.0 {
      ScaleCompare(-x, tolerance, k);
    } else {
      ScaleCompare(x, tolerance, k);
    }
  }

  lemma ScaleCompare(x: real, y: real, k: real)
    requires k > 0.0
    ensures x < y <==> x * k < y * k
  {
  }

  lemma SlotArithmetic(startHz: int, endHz: int, count: int, bwKhz: int, slot: int)
    requires SlotBandwidth(bwKhz) && count * bwKhz * 1000 == endHz - startHz
    ensures var hz := startHz + 500 * bwKhz + (slot - 1) * bwKhz * 1000;
            && (startHz <= hz <= endHz <==> 1 <= slot <= count)
            && (1 <= slot <= count ==> startHz + 500 * bwKhz <= hz <= endHz - 500 * bwKhz)
  {
    if bwKhz == 125 {
      assert startHz + 500 * bwKhz + (slot - 1) * bwKhz * 1000 == startHz + 62_500 + (slot - 1) * 125_000;
    } else if bwKhz == 250 {
      assert startHz + 500 * bwKhz + (slot - 1) * bwKhz * 1000 == startHz + 125_000 + (slot - 1) * 250_000;
    } else {
      assert startHz + 500 * bwKhz + (slot - 1) * bwKhz * 1000 == startHz + 250_000 + (slot - 1) * 500_000;
    }
  }

  /** The formula lies in the band exactly for the valid slots, and then half a channel or more inside it. */
  lemma SlotInBandIff(slot: int, bwKhz: int, region: string)
    requires Known(region) && SlotBandwidth(bwKhz)
    ensures Concentrator.InBand(region, FormulaHz(region, bwKhz, slot)) <==> 1 <= slot <= NumSlots(region, bwKhz)
    ensures 1 <= slot <= NumSlots(region, bwKhz) ==>
            BANDS[region].startHz + 500 * bwKhz <= FormulaHz(region, bwKhz, slot) <= BANDS[region].endHz - 500 * bwKhz
  {
    BandIsWhole(region, bwKhz);
    SlotArithmetic(BANDS[region].startHz, BANDS[region].endHz, NumSlots(region, bwKhz), bwKhz, slot);
  }

  const DEFAULT_MHZ: map<string, real> :=
    map["US" := 906.875, "EU_868" := 869.525, "ANZ" := 916.0, "IN" := 865.4625, "KR" := 921.9, "SG_923" := 923.0]

  class RadioConfig {
    var region: string
    var frequencyMhz: Option<real>
    var slot: Option<int>
    var bandwidthKhz: real

    constructor (region: string, frequencyMhz: Option<real>, slot: Option<int>, bandwidthKhz: real)
      ensures this.region == region && this.frequencyMhz == frequencyMhz
      ensures this.slot == slot && this.bandwidthKhz == bandwidthKhz
    {
      this.region, this.frequencyMhz, this.slot, this.bandwidthKhz := region, frequencyMhz, slot, bandwidthKhz;
    }

    /** An explicit frequency wins, then the slot of a known region, then the region's default. */
    method ResolveFrequency()
      modifies this`frequencyMhz
      ensures frequencyMhz.Some?
      ensures old(frequencyMhz).Some? ==> frequencyMhz == old(frequencyMhz)
      ensures old(frequencyMhz).None? && slot.Some? && region in FREQ_START ==>
              frequencyMhz.value == Round4(Formula(FREQ_START[region], bandwidthKhz, slot.value))
      ensures old(frequencyMhz).None? && !(slot.Some? && region in FREQ_START) ==>
              frequencyMhz.value == if region in DEFAULT_MHZ then DEFAULT_MHZ[region] else 906.875
    {
      if frequencyMhz.Some? {
        return;
      }
      if slot.Some? {
        if region in FREQ_START {
          frequencyMhz := Some(Round4(Formula(FREQ_START[region], bandwidthKhz, slot.value)));
          return;
        }
      }
      frequencyMhz := Some(if region in DEFAULT_MHZ then DEFAULT_MHZ[region] else 906.875);
    }
  }

  /** From the slot picked on the dashboard to the concentrator: the backend resolves the frequency the card
      showed, and the plan builder accepts it and listens on exactly that frequency. */
  method PlanForSlot(region: string, slot: int, bwKhz: int, spreadingFactor: int) returns (plan: Concentrator.Plan)
    requires SlotToFreq(slot, bwKhz, region).Some?
    ensures plan.singleSf.frequencyHz as real == SlotToFreq(slot, bwKhz, region).value * 1_000_000.0
    ensures plan.singleSf.spreadingFactor == spreadingFactor && plan.singleSf.bandwidthKhz == bwKhz
    ensures Concentrator.AllReachable(plan)
  {
    CardIsKnown(region);
    var radio := new RadioConfig(region, None, Some(slot), bwKhz as real);
    radio.ResolveFrequency();
    FormulaIsExact(region, bwKhz, slot);
    SlotInBandIff(slot, bwKhz, region);
    assert radio.frequencyMhz == SlotToFreq(slot, bwKhz, region);
    var outcome := Concentrator.FromRadioConfig(region, radio.frequencyMhz.value, spreadingFactor, bwKhz as real);
    plan := outcome.plan;
  }

  /** The modem presets' copy of the defaults. */
  const PRESET_MHZ: map<string, real> :=
    map["US" := 906.875, "EU_868" := 869.525, "ANZ" := 916.0, "IN" := 865.4625, "KR" := 921.9, "SG_923" := 923.0]

  /** The two copies agree, whatever a configuration leaves out, with 906.875 MHz for unknown regions. */
  lemma DefaultCopiesAgree(region: string)
    ensures region in DEFAULT_MHZ <==> region in PRESET_MHZ
    ensures region in DEFAULT_MHZ ==> DEFAULT_MHZ[region] == PRESET_MHZ[region]
    ensures region in DEFAULT_MHZ <==> region in BANDS
  {
  }

  /** The two default tables disagree: with neither frequency nor slot configured, ANZ, IN, KR and SG_923 are
      tuned away from the default the plan builder knows. */
  lemma DefaultTablesAgreeIff(region: string)
    requires region in BANDS
    ensures region in DEFAULT_MHZ
    ensures DEFAULT_MHZ[region] * 1_000_000.0 == BANDS[region].defaultHz as real <==> region in {"US", "EU_868"}
  {
  }
}
