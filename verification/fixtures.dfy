/** A worked planning run: the four-ware catalog of the loader's own
    planning test (energy cells, microchips, silicon and silicon wafers)
    and the accumulator that 36 microchips per minute produce from it. */
module Fixtures {
  import opened Errors
  import opened Catalog
  import opened Rates
  import opened Selection
  import opened Demand

  const Default := Locator("20206", "101")

  const EnergyCells := Method("default", 60.0, 175, [], Default)
  const Microchips := Method("default", 600.0, 72, [("energycells", 50), ("siliconwafers", 200)], Default)
  const SiliconWafers := Method("default", 180.0, 107, [("energycells", 90), ("silicon", 240)], Default)

  const EnergyCellsInfo := WareInfo("energycells", 10, 22, "container")
  const MicrochipsInfo := WareInfo("microchips", 805, 1090, "container")
  const SiliconInfo := WareInfo("silicon", 111, 150, "solid")
  const SiliconWafersInfo := WareInfo("siliconwafers", 180, 419, "container")

  /** The catalog in document order; silicon has no method and can only be
      imported. */
  const Wares1: Catalog := [
    Ware(EnergyCellsInfo, [EnergyCells], Some(Locator("20201", "701"))),
    Ware(MicrochipsInfo, [Microchips], Some(Locator("20201", "2201"))),
    Ware(SiliconInfo, [], Some(Locator("20201", "3501"))),
    Ware(SiliconWafersInfo, [SiliconWafers], Some(Locator("20201", "3601")))
  ]

  /** Each ware ranks above the wares it consumes. */
  const Rank1 := map["energycells" := 0, "silicon" := 0, "siliconwafers" := 1, "microchips" := 2]

  const Config1 := Config(Wares1, [], [], Rank1)

  lemma Wares1WellFormed()
    ensures WellFormed(Config1)
  {
    assert RankedMethod(Rank1, "microchips", Microchips);
    assert RankedMethod(Rank1, "siliconwafers", SiliconWafers);
  }

  // The accumulator after each step of the run, in the order
  // `add_wares_rec` visits the wares: microchips, then their inputs
  // depth first.

  const MicrochipsEntry := Entry("microchips", 36.0, MicrochipsInfo, Producing(5, Microchips))
  const CellsEntry := Entry("energycells", 25.0, EnergyCellsInfo, Producing(1, EnergyCells))
  const CellsEntry2 := Entry("energycells", 115.0, EnergyCellsInfo, Producing(1, EnergyCells))
  const WafersEntry := Entry("siliconwafers", 100.0, SiliconWafersInfo, Producing(3, SiliconWafers))
  const SiliconEntry := Entry("silicon", 240.0, SiliconInfo, Imported)

  const Acc1: Acc := [MicrochipsEntry]
  const Acc2: Acc := [MicrochipsEntry, CellsEntry]
  const Acc3: Acc := [MicrochipsEntry, CellsEntry, WafersEntry]
  const Acc4: Acc := [MicrochipsEntry, CellsEntry2, WafersEntry]
  const Acc5: Acc := [MicrochipsEntry, CellsEntry2, WafersEntry, SiliconEntry]

  /** 36 microchips per minute at 7.2 per facility: five facilities. */
  lemma MicrochipsAdded()
    requires WellFormed(Config1)
    ensures AddOne(Config1, [], "microchips", 36.0) == Ok(Added(Acc1, Some((5, Microchips))))
  {
    assert Wares1[1..][0] == Wares1[1];
    assert FindWare(Wares1, "microchips") == Some(1);
    assert FindDesiredMethod(Wares1[1], [], []) == Ok(Microchips);
    assert FacilityCount(36.0, WaresPerMinute(Microchips)) == 5;
    assert [] + [MicrochipsEntry] == Acc1;
    assert AddNew(Config1, [], "microchips", 36.0) == Ok(Added(Acc1, Some((5, Microchips))));
  }

  /** Five microchip facilities draw 25 energy cells per minute: one
      facility, and energy cells consume nothing. */
  lemma CellsAdded()
    requires WellFormed(Config1) && Consistent(Config1, Acc1)
    ensures AddWaresRec(Config1, Acc1, "energycells", 25.0) == Ok(Acc2)
  {
    assert FindWare(Wares1, "energycells") == Some(0);
    assert FindDesiredMethod(Wares1[0], [], []) == Ok(EnergyCells);
    assert FacilityCount(25.0, WaresPerMinute(EnergyCells)) == 1;
    assert Acc1 + [CellsEntry] == Acc2;
    assert AddNew(Config1, Acc1, "energycells", 25.0) == Ok(Added(Acc2, Some((1, EnergyCells))));
    assert AddOne(Config1, Acc1, "energycells", 25.0) == Ok(Added(Acc2, Some((1, EnergyCells))));
    assert Propagate(Config1, Acc2, "energycells", EnergyCells, 1, 0) == Ok(Acc2);
  }

  /** They draw 100 wafers per minute: at 107 per three minutes, three
      facilities. */
  lemma WafersAdded()
    requires WellFormed(Config1) && Consistent(Config1, Acc2)
    ensures AddOne(Config1, Acc2, "siliconwafers", 100.0) == Ok(Added(Acc3, Some((3, SiliconWafers))))
  {
    assert Wares1[3..][0] == Wares1[3];
    assert FindWare(Wares1[3..], "siliconwafers") == Some(0);
    assert FindWare(Wares1[2..], "siliconwafers") == Some(1);
    assert FindWare(Wares1[1..], "siliconwafers") == Some(2);
    assert FindWare(Wares1, "siliconwafers") == Some(3);
    assert FindDesiredMethod(Wares1[3], [], []) == Ok(SiliconWafers);
    assert FacilityCount(100.0, WaresPerMinute(SiliconWafers)) == 3;
    assert Acc2 + [WafersEntry] == Acc3;
    assert AddNew(Config1, Acc2, "siliconwafers", 100.0) == Ok(Added(Acc3, Some((3, SiliconWafers))));
  }

  /** Three wafer facilities draw 90 more energy cells per minute; the one
      cell facility covers all 115, so none is added. */
  lemma CellsGrown()
    requires WellFormed(Config1) && Consistent(Config1, Acc3)
    ensures AddWaresRec(Config1, Acc3, "energycells", 90.0) == Ok(Acc4)
  {
    assert FindEntry(Acc3, "energycells") == Some(1);
    assert FacilityCount(115.0, WaresPerMinute(EnergyCells)) == 1;
    assert Regrown(CellsEntry, 90.0) == CellsEntry2;
    assert Acc3[1 := CellsEntry2] == Acc4;
    assert AddExisting(Config1, Acc3, 1, 90.0) == Added(Acc4, None);
    assert AddOne(Config1, Acc3, "energycells", 90.0) == Ok(Added(Acc4, None));
  }

  lemma SiliconLookup()
    ensures FindEntry(Acc4, "silicon") == None
    ensures Get(Wares1, "silicon") == Ok(Wares1[2])
  {
    assert FindEntry(Acc4, "silicon") == None;
    assert Wares1[2..][0] == Wares1[2];
    assert FindWare(Wares1[2..], "silicon") == Some(0);
    assert FindWare(Wares1[1..], "silicon") == Some(1);
  }

  /** And 240 silicon per minute, which has no method: it is imported. */
  lemma SiliconImported()
    requires WellFormed(Config1) && Consistent(Config1, Acc4)
    ensures AddWaresRec(Config1, Acc4, "silicon", 240.0) == Ok(Acc5)
  {
    SiliconLookup();
    assert Acc4 + [SiliconEntry] == Acc5;
    assert AddNew(Config1, Acc4, "silicon", 240.0) == Ok(Added(Acc5, None));
    assert AddOne(Config1, Acc4, "silicon", 240.0) == Ok(Added(Acc5, None));
  }

  /** The wafers' whole share: their facilities, then their inputs in
      the order the method lists them. */
  lemma WafersPlanned()
    requires WellFormed(Config1) && Consistent(Config1, Acc2)
    ensures AddWaresRec(Config1, Acc2, "siliconwafers", 100.0) == Ok(Acc5)
  {
    WafersAdded();
    WafersInputs();
  }

  /** The wafer facilities' inputs: energy cells, then silicon. */
  lemma WafersInputs()
    requires WellFormed(Config1) && Consistent(Config1, Acc3)
    ensures RankedMethod(Rank1, "siliconwafers", SiliconWafers) && Productive(SiliconWafers)
    ensures Propagate(Config1, Acc3, "siliconwafers", SiliconWafers, 3, 0) == Ok(Acc5)
  {
    var cfg := Config1;
    assert RankedMethod(Rank1, "siliconwafers", SiliconWafers);
    CellsGrown();
    assert Propagate(cfg, Acc3, "siliconwafers", SiliconWafers, 3, 0) == Propagate(cfg, Acc4, "siliconwafers", SiliconWafers, 3, 1);
    SiliconImported();
    assert Propagate(cfg, Acc5, "siliconwafers", SiliconWafers, 3, 2) == Ok(Acc5);
  }

  /** Asking for 36 microchips per minute plans five microchip facilities,
      one energy cell facility for 25 + 90 = 115 cells per minute, three
      wafer facilities for 100 wafers per minute, and imports 240 silicon
      per minute. */
  lemma Wares1Plan()
    ensures WellFormed(Config1)
    ensures PlanAll(Config1, [("microchips", PerMinute(36.0))]) == Ok(Acc5)
  {
    Wares1WellFormed();
    var cfg := Config1;
    MicrochipsAdded();
    CellsAdded();
    assert Propagate(cfg, Acc1, "microchips", Microchips, 5, 0) == Propagate(cfg, Acc2, "microchips", Microchips, 5, 1);
    WafersPlanned();
    assert Propagate(cfg, Acc5, "microchips", Microchips, 5, 2) == Ok(Acc5);
    assert Propagate(cfg, Acc2, "microchips", Microchips, 5, 1) == Ok(Acc5);
    assert AddWaresRec(cfg, [], "microchips", 36.0) == Ok(Acc5);
    var reqs := [("microchips", PerMinute(36.0))];
    assert RunRequests(cfg, Acc5, reqs[1..]) == Ok(Acc5);
  }
}
