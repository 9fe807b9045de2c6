/** Fitting a grid into one packet (src/MQTTBridge/epggrid.py, `EpgGridPublisher._fitted`). */
module EpgFitting {
  import opened Options
  import opened Packet
  import opened PrimeField
  import opened GridJson

  /** What the bridge answers for a topic: a payload's JSON with its size when that is over the bound, else 0. */
  datatype Measure = Measure(encoded: string, size: nat)

  /** The bridge as the publisher sees it, for one topic. */
  datatype Meter = Meter(measure: Grid -> Measure, exceeds: nat -> bool)

  /** The grid cut to `count` events per channel fits. */
  predicate Fits(meter: Meter, grid: Grid, count: nat) {
    meter.measure(Cut(grid, count)).size == 0
  }

  /** Saying "too big" without encoding: the JSON of a cut and the least one event more adds. */
  predicate Pruned(meter: Meter, grid: Grid, count: nat) {
    meter.exceeds(|meter.measure(Cut(grid, count)).encoded| + LeastAdded(grid.channels, count))
  }

  /** What the search relies on. */
  ghost predicate Sound(meter: Meter) {
    && (forall grid, a: nat, b: nat :: 1 <= a <= b && Fits(meter, grid, b) ==> Fits(meter, grid, a))
    && (forall grid, count: nat :: count >= 1 && Pruned(meter, grid, count) ==> !Fits(meter, grid, count + 1))
  }

  // ---------------------------------------------------------------- the bridge is sound

  function BridgeMeter(topic: string): Meter {
    Meter(g => Measure(Encode(g), Oversize(topic, Text(Encode(g)))), (least: nat) => Exceeds(topic, least))
  }

  lemma {:induction false} FitsExactly(topic: string, g: Grid, count: nat)
    ensures Fits(BridgeMeter(topic), g, count) <==>
      PACKET_OVERHEAD_BYTES + Utf8Length(topic) + Utf8Length(Encode(Cut(g, count))) <= MAX_PACKET_BYTES
  {
    OversizeIsExact(topic, Text(Encode(Cut(g, count))));
  }

  /** What fits still fits with fewer events. */
  lemma {:induction false} FewerFit(topic: string, grid: Grid, a: nat, b: nat)
    requires 1 <= a <= b && Fits(BridgeMeter(topic), grid, b)
    ensures Fits(BridgeMeter(topic), grid, a)
  {
    CuttingShortens(grid, a, b);
    FitsExactly(topic, grid, a);
    FitsExactly(topic, grid, b);
  }

  lemma {:induction false} PrunedExactly(topic: string, grid: Grid, count: nat)
    ensures Pruned(BridgeMeter(topic), grid, count) <==>
      PACKET_OVERHEAD_BYTES + Utf8Length(topic)
      + (|Encode(Cut(grid, count))| + LeastAdded(grid.channels, count)) > MAX_PACKET_BYTES
  {
  }

  /** When the measured length and the least one event more adds are over the bound, one event more does not fit. */
  lemma {:induction false} PrunedNeverFits(topic: string, grid: Grid, count: nat)
    requires count >= 1 && Pruned(BridgeMeter(topic), grid, count)
    ensures !Fits(BridgeMeter(topic), grid, count + 1)
  {
    PrunedExactly(topic, grid, count);
    LeastAddedIsLeast(grid, count);
    FitsExactly(topic, grid, count + 1);
  }

  /** The bridge's own measuring meets what the search relies on. */
  lemma {:induction false} BridgeIsSound(topic: string)
    ensures Sound(BridgeMeter(topic))
  {
    forall grid, a: nat, b: nat | 1 <= a <= b && Fits(BridgeMeter(topic), grid, b)
      ensures Fits(BridgeMeter(topic), grid, a)
    {
      FewerFit(topic, grid, a, b);
    }
    forall grid, count: nat | count >= 1 && Pruned(BridgeMeter(topic), grid, count)
      ensures !Fits(BridgeMeter(topic), grid, count + 1)
    {
      PrunedNeverFits(topic, grid, count);
    }
  }

  // ---------------------------------------------------------------- the search

  /** `count` is the largest count, up to `wanted`, that fits. */
  ghost predicate IsLargest(meter: Meter, grid: Grid, wanted: int, count: nat) {
    1 <= count <= wanted && Fits(meter, grid, count) && (count < wanted ==> !Fits(meter, grid, count + 1))
  }

  /** There is only one largest count, and nothing above it fits. */
  lemma {:induction false} NothingAboveLargest(meter: Meter, grid: Grid, wanted: int, count: nat, other: nat)
    requires Sound(meter) && IsLargest(meter, grid, wanted, count) && count < other <= wanted
    ensures !Fits(meter, grid, other)
  {
  }

  /** A finished grid carries no more events per channel than it says. */
  ghost predicate Finished(grid: Grid) {
    forall c :: c in grid.channels ==> c.events == [] || |c.events| <= grid.eventsPerChannel
  }

  lemma {:induction false} ChannelsUncut(channels: seq<Channel>, count: nat)
    requires forall c :: c in channels ==> c.events == [] || |c.events| <= count
    ensures CutChannels(channels, count) == channels
  {
    if channels == [] {
    } else {
      var n := |channels| - 1;
      ChannelsUncut(channels[..n], count);
      assert channels[n] in channels;
      assert channels == channels[..n] + [channels[n]];
    }
  }

  lemma {:induction false} WholeIsCut(grid: Grid)
    requires Finished(grid) && grid.eventsPerChannel >= 0
    ensures Cut(grid, grid.eventsPerChannel) == grid
  {
    ChannelsUncut(grid.channels, grid.eventsPerChannel);
  }

  /** How often a range of `n` counts is halved before nothing is left. */
  function Halvings(n: int): nat {
    if n <= 0 then 0 else 1 + Halvings(n / 2)
  }

  lemma {:induction false} HalvingsGrow(a: int, b: int)
    requires a <= b
    ensures Halvings(a) <= Halvings(b)
  {
    if a <= 0 {
    } else {
      HalvingsGrow(a / 2, b / 2);
    }
  }

  /** The halvings of a range are the bits of its size. */
  lemma {:induction false} HalvingsAreLogarithmic(n: nat)
    requires n >= 1
    ensures Halvings(n) >= 1 && Pow(2, Halvings(n) - 1) <= n < Pow(2, Halvings(n))
  {
    if n == 1 {
    } else {
      HalvingsAreLogarithmic(n / 2);
    }
  }

  lemma {:induction false} OneHalving(low: int, high: int)
    requires low <= high
    ensures var middle := (low + high) / 2;
      && low <= middle <= high
      && 1 + Halvings(middle - low) <= Halvings(high - low + 1)
      && 1 + Halvings(high - middle) <= Halvings(high - low + 1)
  {
    var middle, n := (low + high) / 2, high - low + 1;
    HalvingsGrow(middle - low, n / 2);
    HalvingsGrow(high - middle, n / 2);
  }

  /** For the setting at its highest, 20, and for the default of 4. */
  lemma {:induction false} HalvingsOfSettings()
    ensures Halvings(20 - 1) == 5 && Halvings(4 - 1) == 2
  {
  }

  /** A grid that was measured, with its JSON. */
  datatype Tried = Tried(grid: Grid, encoded: string)

  ghost predicate IsTry(meter: Meter, tried: Tried, grid: Grid, count: nat) {
    tried == Tried(Cut(grid, count), meter.measure(Cut(grid, count)).encoded)
  }

  /**
   What the search knows: `low - 1` fits if anything was found,
   `high + 1` does not fit unless it was never asked for.
   */
  ghost predicate Searching(meter: Meter, grid: Grid, low: int, high: int, best: Option<Tried>,
      smallest: Option<Tried>) {
    var wanted := grid.eventsPerChannel;
    && 1 <= low <= high + 1 <= wanted + 1
    && (high < wanted ==> !Fits(meter, grid, high + 1))
    && (best.Some? ==> low > 1 && IsTry(meter, best.value, grid, low - 1) && Fits(meter, grid, low - 1))
    && (best.None? ==> low == 1 && high < wanted && smallest.Some? && IsTry(meter, smallest.value, grid, high + 1))
  }

  lemma {:induction false} NarrowedFromAbove(meter: Meter, grid: Grid, low: int, high: int, best: Option<Tried>,
                                             smallest: Option<Tried>, middle: nat, tried: Tried)
    requires Searching(meter, grid, low, high, best, smallest) && low <= middle <= high
    requires IsTry(meter, tried, grid, middle) && !Fits(meter, grid, middle)
    ensures Searching(meter, grid, low, middle - 1, best, Some(tried))
  {
  }

  lemma {:induction false} NarrowedFromBelow(meter: Meter, grid: Grid, low: int, high: int, best: Option<Tried>,
                                             smallest: Option<Tried>, middle: nat, tried: Tried)
    requires Searching(meter, grid, low, high, best, smallest) && low <= middle <= high
    requires IsTry(meter, tried, grid, middle) && Fits(meter, grid, middle)
    ensures Searching(meter, grid, middle + 1, high, Some(tried), smallest)
  {
  }

  /** What the publisher hands over for a grid that promises at least one event. */
  ghost predicate IsFitted(meter: Meter, grid: Grid, tried: Tried, cut: Option<nat>) {
    var wanted, count := grid.eventsPerChannel, tried.grid.eventsPerChannel;
    && count >= 1 && IsTry(meter, tried, grid, count)
    && (if Fits(meter, grid, 1)
        then IsLargest(meter, grid, wanted, count) && cut == if count < wanted then Some(count) else None
        else count == 1 && cut.None?)
  }

  /** The packet that the grid cut to `count` events per channel makes. */
  function CutPacket(topic: string, grid: Grid, count: nat): nat {
    PacketSize(topic, Text(Encode(Cut(grid, count))))
  }

  /**
   In bytes: what is handed over is the grid, cut to the largest count whose packet is within the limit; the cut is
   remembered when it leaves events out. With no count within the limit it is cut to one event, and none is remembered.
   */
  lemma {:induction false} FittedIsLargestPacket(topic: string, grid: Grid, tried: Tried, cut: Option<nat>)
    ensures IsFitted(BridgeMeter(topic), grid, tried, cut) <==>
      var wanted, count := grid.eventsPerChannel, tried.grid.eventsPerChannel;
      && count >= 1 && tried.grid == Cut(grid, count) && tried.encoded == Encode(Cut(grid, count))
      && if CutPacket(topic, grid, 1) > MAX_PACKET_BYTES then count == 1 && cut.None?
         else
           && count <= wanted && CutPacket(topic, grid, count) <= MAX_PACKET_BYTES
           && (forall more: nat :: count < more <= wanted ==> CutPacket(topic, grid, more) > MAX_PACKET_BYTES)
           && cut == if count < wanted then Some(count) else None
  {
    hide Encode, Cut;
    var meter, wanted, count := BridgeMeter(topic), grid.eventsPerChannel, tried.grid.eventsPerChannel;
    BridgeIsSound(topic);
    forall n: nat ensures Fits(meter, grid, n) <==> CutPacket(topic, grid, n) <= MAX_PACKET_BYTES {
      FitsExactly(topic, grid, n);
    }
    if count >= 1 && IsLargest(meter, grid, wanted, count) {
      forall more: nat | count < more <= wanted ensures !Fits(meter, grid, more) {
        NothingAboveLargest(meter, grid, wanted, count, more);
      }
    }
  }

  class Fitter {
    var cuts: map<string, nat>

    /** A cut that is remembered left at least one event on each channel. */
    ghost predicate Valid()
      reads this
    {
      forall slug :: slug in cuts ==> cuts[slug] >= 1
    }

    constructor ()
      ensures Valid() && cuts == map[]
    {
      cuts := map[];
    }

    /** Where the search begins when a cut is remembered, with what was measured on the way there. */
    method FromSeed(meter: Meter, grid: Grid, seed: nat)
      returns (low: int, high: int, best: Option<Tried>, smallest: Option<Tried>, measured: nat)
      requires Sound(meter) && 1 <= seed < grid.eventsPerChannel
      ensures Searching(meter, grid, low, high, best, smallest)
      ensures measured <= 2 && high - low + 1 <= grid.eventsPerChannel - 2
      ensures Fits(meter, grid, seed) && Pruned(meter, grid, seed) ==> measured == 1 && high < low
    {
      var wanted := grid.eventsPerChannel;
      best, smallest := None, None;
      var trial := Cut(grid, seed);
      var m := meter.measure(trial);
      measured := 1;
      if m.size > 0 {
        smallest := Some(Tried(trial, m.encoded));
        low, high := 1, seed - 1;
        return;
      }
      best := Some(Tried(trial, m.encoded));
      low, high := seed + 1, wanted;
      if meter.exceeds(|m.encoded| + LeastAdded(grid.channels, seed)) {
        assert Pruned(meter, grid, seed);
        high := seed;
      } else {
        trial := Cut(grid, seed + 1);
        m := meter.measure(trial);
        measured := 2;
        if m.size > 0 {
          high := seed;
        } else {
          best := Some(Tried(trial, m.encoded));
          low := seed + 2;
        }
      }
    }

    method Try(meter: Meter, grid: Grid, count: nat) returns (tried: Tried, fits: bool)
      ensures IsTry(meter, tried, grid, count) && (fits <==> Fits(meter, grid, count))
    {
      var trial := Cut(grid, count);
      var m := meter.measure(trial);
      return Tried(trial, m.encoded), m.size == 0;
    }

    /** The counts that are left are searched by halves. */
    method Search(meter: Meter, grid: Grid, from: int, to: int, found: Option<Tried>, tooBig: Option<Tried>)
      returns (best: Option<Tried>, smallest: Option<Tried>, measured: nat, ghost end: int)
      requires Searching(meter, grid, from, to, found, tooBig)
      ensures measured <= Halvings(to - from + 1)
      ensures Searching(meter, grid, end + 1, end, best, smallest)
    {
      hide Cut, Halvings;
      var low, high := from, to;
      best, smallest, measured := found, tooBig, 0;
      while low <= high
        invariant Searching(meter, grid, low, high, best, smallest)
        invariant measured + Halvings(high - low + 1) <= Halvings(to - from + 1)
        decreases high - low + 1
      {
        OneHalving(low, high);
        var middle := (low + high) / 2;
        var tried, fits := Try(meter, grid, middle);
        measured := measured + 1;
        if !fits {
          NarrowedFromAbove(meter, grid, low, high, best, smallest, middle, tried);
          smallest := Some(tried);
          high := middle - 1;
        } else {
          NarrowedFromBelow(meter, grid, low, high, best, smallest, middle, tried);
          best := Some(tried);
          low := middle + 1;
        }
      }
      end := high;
    }

    /**
     The grid with as many events as one packet takes, and its JSON: the largest count that fits, whatever count was
     remembered, or one event on each channel when none fits. `measured` counts the encodings.
     */
    method Fitted(slug: string, meter: Meter, grid: Grid) returns (tried: Tried, measured: nat)
      requires Valid() && Sound(meter) && Finished(grid)
      modifies this
      ensures Valid() && cuts - {slug} == old(cuts) - {slug}
      ensures tried.encoded == meter.measure(tried.grid).encoded
      ensures grid.eventsPerChannel >= 1 ==>
        IsFitted(meter, grid, tried, if slug in cuts then Some(cuts[slug]) else None)
      ensures grid.eventsPerChannel < 1 ==> tried.grid == grid && slug !in cuts && measured == 1
      ensures measured <= (if slug in old(cuts) then 2 else 1) + Halvings(grid.eventsPerChannel - 1)
    {
      hide Cut, Halvings;
      var wanted := grid.eventsPerChannel;
      if slug !in cuts || cuts[slug] >= wanted {
        if wanted >= 1 { WholeIsCut(grid); }
        var m := meter.measure(grid);
        measured := 1;
        tried := Tried(grid, m.encoded);
        cuts := cuts - {slug};
        if m.size == 0 || wanted < 2 {
          assert wanted >= 1 ==> Fits(meter, grid, wanted) == (m.size == 0);
          return;
        }
        var more;
        tried, more := FromRange(slug, meter, grid, 1, wanted - 1, None, Some(tried));
        measured := measured + more;
      } else {
        var low, high, best, smallest, first := FromSeed(meter, grid, cuts[slug]);
        var more;
        tried, more := FromRange(slug, meter, grid, low, high, best, smallest);
        measured := first + more;
        HalvingsGrow(high - low + 1, wanted - 1);
      }
    }

    /** The end of the search: the grid found, and the count remembered for the next pass. */
    method FromRange(slug: string, meter: Meter, grid: Grid, low: int, high: int, found: Option<Tried>,
        tooBig: Option<Tried>)
      returns (tried: Tried, measured: nat)
      requires Valid() && Sound(meter) && Searching(meter, grid, low, high, found, tooBig)
      modifies this
      ensures Valid() && cuts - {slug} == old(cuts) - {slug}
      ensures IsFitted(meter, grid, tried, if slug in cuts then Some(cuts[slug]) else None)
      ensures measured <= Halvings(high - low + 1)
    {
      ghost var end;
      var best, smallest;
      best, smallest, measured, end := Search(meter, grid, low, high, found, tooBig);
      if best.None? {
        cuts := cuts - {slug};
        return smallest.value, measured;
      }
      var count := best.value.grid.eventsPerChannel;
      cuts := if count >= grid.eventsPerChannel then cuts - {slug} else cuts[slug := count];
      return best.value, measured;
    }
  }
}
