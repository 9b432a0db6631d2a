/**
  Counting providers per local authority, joining the counts with the
  authorities' population figures, and describing the correlation plot
  (utils.py).

  A providers table is a sequence of rows. The grouped counts are a map from
  city to the number of distinct provider names there; the local-authority
  table is a map from authority name (its index) to its row, a map from column
  name to value. The plot is described by a value rather than drawn.
 */
module AuthorityAnalysis {
  import opened Wrappers
  import opened Tables

  /**
    One row of the medical services table: `profession` is the column
    "סוג התמחות" (type of specialty), `kupa` is "קופת חולים" (health fund),
    `city` is "עיר" and `name` is "שם" (the provider's name).
   */
  datatype ProviderRow = ProviderRow(
    profession: string,
    kupa: string,
    city: string,
    name: string,
    otherColumns: seq<string>)

  type ProviderTable = seq<ProviderRow>

  /** A `None` profession admits every row; a given one admits the rows of that specialty. */
  function ProfessionFilter(profession: Option<string>): ProviderRow -> bool
  {
    (x: ProviderRow) => profession.None? || x.profession == profession.value
  }

  /** A `None` fund admits every row; a given fund admits the rows of that fund. */
  function KupaFilter(kupa: Option<string>): ProviderRow -> bool
  {
    (x: ProviderRow) => kupa.None? || x.kupa == kupa.value
  }

  /** A row survives when it passes both filters. */
  function SelectedFilter(profession: Option<string>, kupa: Option<string>): ProviderRow -> bool
  {
    And(ProfessionFilter(profession), KupaFilter(kupa))
  }

  /** `med_serv_table["סוג התמחות"] == profession`, or the whole table for `None`. */
  function NarrowByProfession(t: ProviderTable, profession: Option<string>): (r: ProviderTable)
    ensures r == Where(t, ProfessionFilter(profession))
  {
    match profession
    case None =>
      WhereKeepsAll(t, ProfessionFilter(profession));
      t
    case Some(p) =>
      WhereCongruent(t, (x: ProviderRow) => x.profession == p, ProfessionFilter(profession));
      Where(t, (x: ProviderRow) => x.profession == p)
  }

  /** `profession_table["קופת חולים"] == kupa`, or the whole table for `None`. */
  function NarrowByKupa(t: ProviderTable, kupa: Option<string>): (r: ProviderTable)
    ensures r == Where(t, KupaFilter(kupa))
  {
    match kupa
    case None =>
      WhereKeepsAll(t, KupaFilter(kupa));
      t
    case Some(k) =>
      WhereCongruent(t, (x: ProviderRow) => x.kupa == k, KupaFilter(kupa));
      Where(t, (x: ProviderRow) => x.kupa == k)
  }

  /**
    The rows that survive the profession filter and then the kupa filter:
    exactly the rows of the table passing both.
   */
  function SelectProviders(t: ProviderTable, profession: Option<string>, kupa: Option<string>)
    : (r: ProviderTable)
    ensures r == Where(t, SelectedFilter(profession, kupa))
  {
    WhereWhere(t, ProfessionFilter(profession), KupaFilter(kupa));
    NarrowByKupa(NarrowByProfession(t, profession), kupa)
  }

  /** With both filters `None` no row is dropped. */
  lemma SelectAllWithoutFilters(t: ProviderTable)
    ensures SelectProviders(t, None, None) == t
  {
    WhereKeepsAll(t, SelectedFilter(None, None));
  }

  /** The cities that occur in `rows`. */
  function CitiesOf(rows: ProviderTable): set<string>
  {
    set x | x in rows :: x.city
  }

  function CityFilter(city: string): ProviderRow -> bool
  {
    (x: ProviderRow) => x.city == city
  }

  function NameOf(x: ProviderRow): string
  {
    x.name
  }

  /** The rows of `rows` in `city`. */
  function RowsIn(rows: ProviderTable, city: string): ProviderTable
  {
    Where(rows, CityFilter(city))
  }

  /** The distinct provider names among the rows of `city` (`nunique()` of "שם"). */
  function NamesIn(rows: ProviderTable, city: string): set<string>
  {
    set x | x in rows && x.city == city :: x.name
  }

  lemma NamesInRowsIn(rows: ProviderTable, city: string)
    ensures NamesIn(rows, city) == ImageOfSeq(RowsIn(rows, city), NameOf)
  {
    var inCity := RowsIn(rows, city);
    SubsequenceMembers(inCity, rows);
    forall n ensures n in NamesIn(rows, city) <==> n in ImageOfSeq(inCity, NameOf) {
      if n in NamesIn(rows, city) {
        var x :| x in rows && x.city == city && x.name == n;
        assert CityFilter(city)(x) && x in inCity;
      }
      if n in ImageOfSeq(inCity, NameOf) {
        var x :| x in inCity && NameOf(x) == n;
        assert CityFilter(city)(x);
      }
    }
  }

  /** `groupby("עיר").nunique()["שם"]`: for each city present, its number of distinct names. */
  function GroupByCity(rows: ProviderTable): (r: map<string, nat>)
    ensures r.Keys == CitiesOf(rows)
    ensures forall c :: c in r ==> r[c] >= 1
  {
    assert forall c :: c in CitiesOf(rows) ==> |NamesIn(rows, c)| >= 1 by {
      forall c | c in CitiesOf(rows) ensures |NamesIn(rows, c)| >= 1 {
        var x :| x in rows && x.city == c;
        assert x.name in NamesIn(rows, c);
      }
    }
    map c | c in CitiesOf(rows) :: |NamesIn(rows, c)|
  }

  /**
    `count_professionals_by_authority`: the grouped counts ("num docs") of the
    rows that pass the filters. Its keys are exactly the surviving rows'
    cities, so no city is reported with a zero count.
   */
  function CountProfessionalsByAuthority(t: ProviderTable, profession: Option<string> := None,
                                         kupa: Option<string> := None): (r: map<string, nat>)
    ensures r.Keys == CitiesOf(Where(t, SelectedFilter(profession, kupa)))
    ensures forall c :: c in r ==> r[c] >= 1
  {
    GroupByCity(SelectProviders(t, profession, kupa))
  }

  /**
    A city's count is the number of distinct names among the city's surviving
    rows, so it is at most the number of those rows.
   */
  lemma CountIsDistinctNames(t: ProviderTable, profession: Option<string>, kupa: Option<string>,
                             city: string)
    requires city in CountProfessionalsByAuthority(t, profession, kupa)
    ensures var rows := SelectProviders(t, profession, kupa);
      && CountProfessionalsByAuthority(t, profession, kupa)[city] == |NamesIn(rows, city)|
      && 1 <= |NamesIn(rows, city)| <= |RowsIn(rows, city)|
  {
    var rows := SelectProviders(t, profession, kupa);
    NamesInRowsIn(rows, city);
    ImageOfSeqCard(RowsIn(rows, city), NameOf);
  }

  /** When a city's surviving rows all carry different names, its count is its row count. */
  lemma CountOfDistinctProviders(t: ProviderTable, profession: Option<string>, kupa: Option<string>,
                                 city: string)
    requires city in CountProfessionalsByAuthority(t, profession, kupa)
    requires var rows := RowsIn(SelectProviders(t, profession, kupa), city);
      forall i, j :: 0 <= i < j < |rows| ==> rows[i].name != rows[j].name
    ensures CountProfessionalsByAuthority(t, profession, kupa)[city]
            == |RowsIn(SelectProviders(t, profession, kupa), city)|
  {
    var rows := SelectProviders(t, profession, kupa);
    NamesInRowsIn(rows, city);
    InjectiveImageOfSeqCard(RowsIn(rows, city), NameOf);
  }

  /** The grouped counts depend only on which cities occur and which names each has. */
  lemma GroupByCityDeterminedByNames(a: ProviderTable, b: ProviderTable)
    requires CitiesOf(a) == CitiesOf(b)
    requires forall c :: c in CitiesOf(a) ==> NamesIn(a, c) == NamesIn(b, c)
    ensures GroupByCity(a) == GroupByCity(b)
  {
  }

  lemma AppendedRowCitiesAndNames(rows: ProviderTable, y: ProviderRow)
    ensures CitiesOf(rows + [y]) == CitiesOf(rows) + {y.city}
    ensures forall c :: NamesIn(rows + [y], c) == NamesIn(rows, c) + (if y.city == c then {y.name} else {})
  {
    assert forall z :: z in rows + [y] <==> z in rows || z == y;
  }

  /**
    Another row for a provider already in the table (same specialty, fund,
    city and name; other columns such as the address may differ) changes no
    count: providers are counted once per city.
   */
  lemma RepeatedProviderNotRecounted(t: ProviderTable, profession: Option<string>,
                                     kupa: Option<string>, x: ProviderRow, y: ProviderRow)
    requires x in t
    requires y.profession == x.profession && y.kupa == x.kupa
    requires y.city == x.city && y.name == x.name
    ensures CountProfessionalsByAuthority(t + [y], profession, kupa)
            == CountProfessionalsByAuthority(t, profession, kupa)
  {
    var p := SelectedFilter(profession, kupa);
    var rows := SelectProviders(t, profession, kupa);
    var rows' := SelectProviders(t + [y], profession, kupa);
    WhereAppend(t, y, p);
    if p(y) {
      assert p(x);
      assert x in rows;
      assert rows' == rows + [y];
      GroupByCityIgnoresRepeat(rows, x, y);
    } else {
      assert rows' == rows;
    }
  }

  lemma GroupByCityIgnoresRepeat(rows: ProviderTable, x: ProviderRow, y: ProviderRow)
    requires x in rows && y.city == x.city && y.name == x.name
    ensures GroupByCity(rows + [y]) == GroupByCity(rows)
  {
    AppendedRowCitiesAndNames(rows, y);
    assert y.name in NamesIn(rows, y.city);
    GroupByCityDeterminedByNames(rows + [y], rows);
  }

  // ---------------------------------------------------------------------
  // merge_professionals_and_population
  // ---------------------------------------------------------------------

  /** The local-authority table: authority name (the index) to the row's column values. */
  type LocalAuthTable = map<string, map<string, real>>

  /** Every row of the table has column `col`. */
  predicate HasColumn(localAuth: LocalAuthTable, col: string)
  {
    forall a :: a in localAuth ==> col in localAuth[a]
  }

  /** One row of the merged table: the population column and "num docs". */
  datatype MergedRow = MergedRow(population: real, numDocs: nat)

  /**
    The inner join on the index: exactly the authorities on both sides, each
    carrying its population value and its count unchanged.
   */
  function MergeProfessionalsAndPopulation(grouped: map<string, nat>, localAuth: LocalAuthTable,
                                           col: string): (r: map<string, MergedRow>)
    requires HasColumn(localAuth, col)
    ensures r.Keys == grouped.Keys * localAuth.Keys
    ensures forall a :: a in r ==> r[a].population == localAuth[a][col] && r[a].numDocs == grouped[a]
  {
    map a | a in grouped.Keys * localAuth.Keys :: MergedRow(localAuth[a][col], grouped[a])
  }

  /** The merged table has one row per authority present in both inputs. */
  lemma MergeSize(grouped: map<string, nat>, localAuth: LocalAuthTable, col: string)
    requires HasColumn(localAuth, col)
    ensures |MergeProfessionalsAndPopulation(grouped, localAuth, col)| == |grouped.Keys * localAuth.Keys|
  {
    var r := MergeProfessionalsAndPopulation(grouped, localAuth, col);
    assert r.Keys == grouped.Keys * localAuth.Keys;
  }

  // ---------------------------------------------------------------------
  // gen_correlation_plot, gen_med_service_correlation_plot
  // ---------------------------------------------------------------------

  datatype PlotLabels = PlotLabels(xlabel: string, ylabel: string, title: string)

  /** How Python's f-string renders an optional string: the string, or "None". */
  function Show(o: Option<string>): (r: string)
    ensures o.Some? ==> r == o.value
    ensures o.None? ==> r == "None"
  {
    match o
    case None => "None"
    case Some(s) => s
  }

  /**
    The axis labels and title: each supplied value is kept as given; a missing
    x label is the population column's name, a missing y label is "num docs",
    and a missing title names the column and the profession.
   */
  function ResolveLabels(col: string, profession: Option<string>, xlabel: Option<string>,
                         ylabel: Option<string>, title: Option<string>): (r: PlotLabels)
    ensures r.xlabel == if xlabel.Some? then xlabel.value else col
    ensures r.ylabel == if ylabel.Some? then ylabel.value else "num docs"
    ensures r.title == if title.Some? then title.value
                       else "correlation between " + col + " and " + Show(profession)
  {
    PlotLabels(
      match xlabel case Some(s) => s case None => col,
      match ylabel case Some(s) => s case None => "num docs",
      match title case Some(s) => s case None => "correlation between " + col + " and " + Show(profession))
  }

  /**
    What the plot shows: one point per merged authority, at (population,
    "num docs"); its labels; and whether the correlation is annotated.
   */
  datatype CorrelationPlot = CorrelationPlot(
    points: map<string, MergedRow>,
    labels: PlotLabels,
    printCorr: bool)

  /** `gen_correlation_plot`, as the description of what it draws. */
  function GenCorrelationPlot(merged: map<string, MergedRow>, col: string,
                              profession: Option<string> := None, xlabel: Option<string> := None,
                              ylabel: Option<string> := None, title: Option<string> := None,
                              printCorr: bool := true): (r: CorrelationPlot)
    ensures r.points == merged && r.printCorr == printCorr
    ensures r.labels == ResolveLabels(col, profession, xlabel, ylabel, title)
  {
    CorrelationPlot(merged, ResolveLabels(col, profession, xlabel, ylabel, title), printCorr)
  }

  /**
    `gen_med_service_correlation_plot`: count, join, plot. The plotted
    authorities are exactly those with a surviving provider row and a
    population row; each point carries the authority's population value and a
    positive count.
   */
  function GenMedServiceCorrelationPlot(t: ProviderTable, localAuth: LocalAuthTable, col: string,
                                        profession: Option<string> := None,
                                        kupa: Option<string> := None,
                                        xlabel: Option<string> := None, ylabel: Option<string> := None,
                                        title: Option<string> := None,
                                        printCorr: bool := true): (r: CorrelationPlot)
    requires HasColumn(localAuth, col)
    ensures r.points == MergeProfessionalsAndPopulation(
                          CountProfessionalsByAuthority(t, profession, kupa), localAuth, col)
    ensures r.points.Keys == CitiesOf(Where(t, SelectedFilter(profession, kupa))) * localAuth.Keys
    ensures forall a :: a in r.points ==>
              r.points[a].population == localAuth[a][col] && r.points[a].numDocs >= 1
    ensures r.labels == ResolveLabels(col, profession, xlabel, ylabel, title)
    ensures r.printCorr == printCorr
  {
    var grouped := CountProfessionalsByAuthority(t, profession, kupa);
    var merged := MergeProfessionalsAndPopulation(grouped, localAuth, col);
    GenCorrelationPlot(merged, col, profession, xlabel, ylabel, title, printCorr)
  }

  // ---------------------------------------------------------------------
  // Worked examples
  // ---------------------------------------------------------------------

  /** Counts for A, B and C joined with a population table for A and C keep A and C only. */
  lemma MergeDropsUnmatchedAuthority()
    ensures var grouped := map["A" := 3, "B" := 5, "C" := 2];
      var localAuth := map["A" := map["pop" := 1000.0], "C" := map["pop" := 3000.0]];
      var merged := MergeProfessionalsAndPopulation(grouped, localAuth, "pop");
      && merged.Keys == {"A", "C"}
      && |merged| == 2
      && merged["A"] == MergedRow(1000.0, 3)
      && merged["C"] == MergedRow(3000.0, 2)
  {
    var grouped := map["A" := 3, "B" := 5, "C" := 2];
    var localAuth := map["A" := map["pop" := 1000.0], "C" := map["pop" := 3000.0]];
    assert grouped.Keys * localAuth.Keys == {"A", "C"};
  }

  /**
    Three differently named providers of profession X, all in authority A,
    and one provider of another profession in authority B.
   */
  const ExampleProviders: ProviderTable := [
    ProviderRow("X", "k", "A", "n1", []),
    ProviderRow("X", "k", "A", "n2", []),
    ProviderRow("Y", "k", "B", "n4", []),
    ProviderRow("X", "k", "A", "n3", [])]

  /** The profession filter drops the row of profession Y. */
  lemma ExampleSelection()
    ensures SelectProviders(ExampleProviders, Some("X"), None)
            == [ExampleProviders[0], ExampleProviders[1], ExampleProviders[3]]
  {
  }

  lemma ExampleNames(rows: ProviderTable)
    requires rows == [ExampleProviders[0], ExampleProviders[1], ExampleProviders[3]]
    ensures CitiesOf(rows) == {"A"}
    ensures NamesIn(rows, "A") == {"n1", "n2", "n3"}
    ensures |NamesIn(rows, "A")| == 3
  {
    assert forall x :: x in rows <==> x == rows[0] || x == rows[1] || x == rows[2];
    assert NamesIn(rows, "A") == {"n1", "n2", "n3"};
    assert "n1" != "n2" && "n1" != "n3" && "n2" != "n3";
  }

  lemma ExampleCounts()
    ensures CountProfessionalsByAuthority(ExampleProviders, Some("X")) == map["A" := 3]
  {
    ExampleSelection();
    var rows := SelectProviders(ExampleProviders, Some("X"), None);
    ExampleNames(rows);
    var g := GroupByCity(rows);
    assert g.Keys == {"A"} && g["A"] == 3;
  }

  /**
    Filtering the example by profession X and counting gives A three
    providers and no entry for B; joined with population figures for A and B,
    only A remains, with its population and count.
   */
  lemma EndToEndExample()
    ensures CountProfessionalsByAuthority(ExampleProviders, Some("X")) == map["A" := 3]
    ensures var localAuth := map["A" := map["pop" := 1000.0], "B" := map["pop" := 2000.0]];
      MergeProfessionalsAndPopulation(CountProfessionalsByAuthority(ExampleProviders, Some("X")),
                                      localAuth, "pop")
        == map["A" := MergedRow(1000.0, 3)]
  {
    ExampleCounts();
    var localAuth := map["A" := map["pop" := 1000.0], "B" := map["pop" := 2000.0]];
    assert map["A" := 3].Keys * localAuth.Keys == {"A"};
  }
}
