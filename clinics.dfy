/**
  Cleaning of the clinics table and the providers-per-population ratio
  (files_n__notebooks_for_paper/process_clinic_data.py).

  A table is a sequence of rows in the table's row order. Cleaning drops
  duplicate rows, keeping the first of each, where "duplicate" means equal on
  a subset of the columns chosen by the strictness mode, and then drops the
  rows whose expertise is one of two sentinel labels.
 */
module ClinicData {
  import opened Wrappers
  import opened Tables
  import opened Population

  /** The fourteen morning/afternoon availability columns, Sunday to Saturday. */
  datatype WeekHours = WeekHours(
    sundayMor: string, sundayAft: string,
    mondayMor: string, mondayAft: string,
    tuesdayMor: string, tuesdayAft: string,
    wednesdayMor: string, wednesdayAft: string,
    thursdayMor: string, thursdayAft: string,
    fridayMor: string, fridayAft: string,
    saturdayMor: string, saturdayAft: string)

  /**
    One row of the clinics table. `kupa` and `servicesTypeDesc` are the
    columns the ratio filters on; `otherColumns` stands for every column that
    neither deduplication nor the ratio reads.
   */
  datatype ClinicRow = ClinicRow(
    cityDesc: string,
    mainName: string,
    hmoDesc: string,
    expertiseDesc: string,
    name: string,
    address: string,
    hours: WeekHours,
    validityDate: string,
    servicesTypeDesc: string,
    kupa: string,
    otherColumns: seq<string>)

  type Table = seq<ClinicRow>

  /** Which columns make two rows duplicates. */
  datatype Mode = Tight | Soft

  /** Only the exact string "soft" selects the soft key; every other string selects the tight one. */
  function ModeOf(tightOrSoft: string): (m: Mode)
    ensures m == Soft <==> tightOrSoft == "soft"
    ensures m == Tight <==> tightOrSoft != "soft"
  {
    if tightOrSoft == "soft" then Soft else Tight
  }

  type Key = seq<string>

  /** The values of `Main name`, `expertise_desc` and `name`. */
  function TightKey(x: ClinicRow): Key
  {
    [x.mainName, x.expertiseDesc, x.name]
  }

  function HoursColumns(h: WeekHours): seq<string>
  {
    [h.sundayMor, h.sundayAft, h.mondayMor, h.mondayAft, h.tuesdayMor, h.tuesdayAft,
     h.wednesdayMor, h.wednesdayAft, h.thursdayMor, h.thursdayAft,
     h.fridayMor, h.fridayAft, h.saturdayMor, h.saturdayAft]
  }

  /** The values of the 21 soft columns, in the order the source lists them. */
  function SoftKey(x: ClinicRow): Key
  {
    [x.cityDesc, x.mainName, x.hmoDesc, x.expertiseDesc, x.name, x.address]
    + HoursColumns(x.hours) + [x.validityDate]
  }

  function KeyOf(m: Mode, x: ClinicRow): (k: Key)
    ensures m == Tight ==> |k| == 3
    ensures m == Soft ==> |k| == 21
  {
    match m
    case Tight => TightKey(x)
    case Soft => SoftKey(x)
  }

  /** The tight columns, picked out of a soft key. */
  function TightOfSoft(k: Key): Key
  {
    if |k| == 21 then [k[1], k[3], k[4]] else []
  }

  /** The tight key is a projection of the soft key, so soft duplicates are tight duplicates. */
  lemma TightKeyProjectsSoftKey(x: ClinicRow)
    ensures TightKey(x) == TightOfSoft(SoftKey(x))
  {
    var k := SoftKey(x);
    assert k[1] == x.mainName && k[3] == x.expertiseDesc && k[4] == x.name;
  }

  /** Both keys contain the expertise column, so rows with one key share their expertise. */
  lemma KeyDeterminesExpertise(m: Mode, x: ClinicRow, y: ClinicRow)
    requires KeyOf(m, x) == KeyOf(m, y)
    ensures x.expertiseDesc == y.expertiseDesc
  {
    match m
    case Tight => assert KeyOf(m, x)[1] == KeyOf(m, y)[1];
    case Soft => assert KeyOf(m, x)[3] == KeyOf(m, y)[3];
  }

  /** No two rows of `t` agree on the key. */
  predicate KeysDistinct(m: Mode, t: Table)
  {
    forall i, j :: 0 <= i < j < |t| ==> KeyOf(m, t[i]) != KeyOf(m, t[j])
  }

  /** The key of the chosen mode, as a function on rows. */
  function KeyFn(m: Mode): ClinicRow -> Key
  {
    (x: ClinicRow) => KeyOf(m, x)
  }

  /** Row `i` is the first row of `t` with its key. */
  predicate FirstOfKey(m: Mode, t: Table, i: int)
  {
    IsFirstBy(KeyFn(m), t, i)
  }

  function KeySet(m: Mode, t: Table): set<Key>
  {
    set x | x in t :: KeyOf(m, x)
  }

  lemma KeySetCons(m: Mode, x: ClinicRow, t: Table)
    ensures KeySet(m, [x] + t) == {KeyOf(m, x)} + KeySet(m, t)
  {
    assert forall y :: y in [x] + t <==> y == x || y in t;
  }

  /** A first occurrence after the head is a first occurrence in the tail, with another key than the head. */
  lemma FirstOfKeyInTail(m: Mode, t: Table)
    requires t != []
    ensures forall i :: 0 < i && FirstOfKey(m, t, i) ==>
              FirstOfKey(m, t[1..], i - 1) && KeyOf(m, t[i]) != KeyOf(m, t[0])
  {
    forall i | 0 < i && FirstOfKey(m, t, i)
      ensures FirstOfKey(m, t[1..], i - 1) && KeyOf(m, t[i]) != KeyOf(m, t[0])
    {
      assert t[1..][i - 1] == t[i];
      forall j | 0 <= j < i - 1 ensures KeyOf(m, t[1..][j]) != KeyOf(m, t[i]) {
        assert t[1..][j] == t[j + 1];
      }
    }
  }

  /** Putting a row with a new key before a table with distinct keys keeps them distinct. */
  lemma ConsKeysDistinct(m: Mode, x: ClinicRow, rest: Table)
    requires KeysDistinct(m, rest)
    requires forall y :: y in rest ==> KeyOf(m, y) != KeyOf(m, x)
    ensures KeysDistinct(m, [x] + rest)
  {
    var r := [x] + rest;
    forall i, j | 0 <= i < j < |r| ensures KeyOf(m, r[i]) != KeyOf(m, r[j]) {
      assert r[j] == rest[j - 1];
      if i > 0 {
        assert r[i] == rest[i - 1];
      }
    }
  }

  /**
    The reference for keep-first deduplication, pandas' row mask
    `~duplicated(subset, keep="first")`: the rows among the first `n` of `t`
    that are the first row of their key, in their order, leaving out the rows
    whose key is in `seen`.
   */
  ghost function FirstOccurrences(m: Mode, t: Table, seen: set<Key>, n: nat): Table
    requires n <= |t|
  {
    FirstOccurrencesBy(KeyFn(m), t, seen, n)
  }

  /**
    `drop_duplicates(keep="first")`, scanning left to right and remembering
    the keys already seen.
   */
  function DropDuplicatesFrom(m: Mode, t: Table, seen: set<Key>): (r: Table)
    ensures IsSubsequence(r, t)
    ensures KeysDistinct(m, r)
    ensures forall x :: x in r ==> KeyOf(m, x) !in seen
    ensures KeySet(m, r) == KeySet(m, t) - seen
    ensures forall i :: FirstOfKey(m, t, i) && KeyOf(m, t[i]) !in seen ==> t[i] in r
    decreases |t|
  {
    if t == [] then []
    else
      var k := KeyOf(m, t[0]);
      assert t == [t[0]] + t[1..];
      KeySetCons(m, t[0], t[1..]);
      FirstOfKeyInTail(m, t);
      if k in seen then
        DropDuplicatesFrom(m, t[1..], seen)
      else
        var rest := DropDuplicatesFrom(m, t[1..], seen + {k});
        KeySetCons(m, t[0], rest);
        ConsKeysDistinct(m, t[0], rest);
        [t[0]] + rest
  }

  /** The scan computes exactly the keep-first mask of the rows whose key is not yet seen. */
  lemma {:induction false} DropDuplicatesFromIsMask(m: Mode, t: Table, seen: set<Key>)
    ensures DropDuplicatesFrom(m, t, seen) == FirstOccurrences(m, t, seen, |t|)
    decreases |t|
  {
    if t != [] {
      var k := KeyOf(m, t[0]);
      var seen' := seen + {k};
      FirstOccurrencesByCons(KeyFn(m), t, seen, |t| - 1);
      DropDuplicatesFromIsMask(m, t[1..], seen');
      var rest := DropDuplicatesFrom(m, t[1..], seen');
      if k in seen {
        assert seen' == seen;
        assert DropDuplicatesFrom(m, t, seen) == rest;
      } else {
        assert DropDuplicatesFrom(m, t, seen) == [t[0]] + rest;
      }
    }
  }

  /**
    Keep-first deduplication: exactly the rows that are the first of their
    key, in their order. Hence no two remaining rows share a key and every key
    of the input survives.
   */
  function DropDuplicates(m: Mode, t: Table): (r: Table)
    ensures r == FirstOccurrences(m, t, {}, |t|)
    ensures IsSubsequence(r, t)
    ensures KeysDistinct(m, r)
    ensures KeySet(m, r) == KeySet(m, t)
    ensures forall i :: FirstOfKey(m, t, i) ==> t[i] in r
  {
    DropDuplicatesFromIsMask(m, t, {});
    DropDuplicatesFrom(m, t, {})
  }

  /** The row kept for a key is that key's first row in the input. */
  lemma KeptRowIsFirstOccurrence(m: Mode, t: Table, x: ClinicRow, i: int)
    requires x in DropDuplicates(m, t)
    requires FirstOfKey(m, t, i) && KeyOf(m, t[i]) == KeyOf(m, x)
    ensures x == t[i]
  {
    var r := DropDuplicates(m, t);
    var a :| 0 <= a < |r| && r[a] == x;
    var b :| 0 <= b < |r| && r[b] == t[i];
  }

  /** A subsequence of a table with distinct keys has distinct keys. */
  lemma {:induction false} SubsequenceKeysDistinct(m: Mode, a: Table, b: Table)
    requires IsSubsequence(a, b) && KeysDistinct(m, b)
    ensures KeysDistinct(m, a)
    decreases |b|
  {
    if a != [] {
      if a[0] == b[0] && IsSubsequence(a[1..], b[1..]) {
        SubsequenceKeysDistinct(m, a[1..], b[1..]);
        SubsequenceMembers(a[1..], b[1..]);
        forall i, j | 0 <= i < j < |a| ensures KeyOf(m, a[i]) != KeyOf(m, a[j]) {
          if i == 0 {
            assert a[j] in b[1..];
            var k :| 0 <= k < |b[1..]| && b[1..][k] == a[j];
            assert b[k + 1] == a[j];
          } else {
            assert a[i] == a[1..][i - 1] && a[j] == a[1..][j - 1];
          }
        }
      } else {
        SubsequenceKeysDistinct(m, a, b[1..]);
      }
    }
  }

  /** A table with distinct keys has as many rows as keys. */
  lemma DistinctKeysCount(m: Mode, t: Table)
    requires KeysDistinct(m, t)
    ensures |KeySet(m, t)| == |t|
  {
    var f := (x: ClinicRow) => KeyOf(m, x);
    assert KeySet(m, t) == ImageOfSeq(t, f);
    InjectiveImageOfSeqCard(t, f);
  }

  /** Deduplicating a table whose keys are already distinct changes nothing. */
  lemma {:induction false} DropDuplicatesFromDistinct(m: Mode, t: Table, seen: set<Key>)
    requires KeysDistinct(m, t)
    requires forall x :: x in t ==> KeyOf(m, x) !in seen
    ensures DropDuplicatesFrom(m, t, seen) == t
    decreases |t|
  {
    if t != [] {
      var k := KeyOf(m, t[0]);
      SubsequenceReflexive(t[1..]);
      assert IsSubsequence(t[1..], t);
      SubsequenceKeysDistinct(m, t[1..], t);
      forall x | x in t[1..] ensures KeyOf(m, x) !in seen + {k} {
        var j :| 0 <= j < |t[1..]| && t[1..][j] == x;
        assert t[j + 1] == x;
      }
      DropDuplicatesFromDistinct(m, t[1..], seen + {k});
    }
  }

  /** The two sentinel expertise labels: "not relevant" and "office services". */
  const NonRelevantExpertise: seq<string> := ["לא רלוונטי", "שירותי משרד"]

  /** `~expertise_desc.isin(non_relevant_expertise)`: the row has neither sentinel label. */
  function IsRelevant(x: ClinicRow): (b: bool)
    ensures b <==> x.expertiseDesc != "לא רלוונטי" && x.expertiseDesc != "שירותי משרד"
  {
    x.expertiseDesc !in NonRelevantExpertise
  }

  /** The keys of the input's relevant rows. */
  function RelevantKeys(m: Mode, t: Table): set<Key>
  {
    set x | x in t && IsRelevant(x) :: KeyOf(m, x)
  }

  /**
    `basic_process_for_clinics_tables`: deduplicate, then drop the sentinel
    expertise rows. The result is the keep-first mask of the chosen key,
    narrowed to the relevant rows.
   */
  function BasicProcess(original: Table, tightOrSoft: string := "soft"): (r: Table)
    ensures r == Where(FirstOccurrences(ModeOf(tightOrSoft), original, {}, |original|), IsRelevant)
  {
    Where(DropDuplicates(ModeOf(tightOrSoft), original), IsRelevant)
  }

  /**
    The cleaned table keeps the input's order, has one row per key, none with
    a sentinel expertise, holds the first row of every relevant key and every
    deduplicated row with another expertise; its keys are exactly the keys of
    the input's relevant rows.
   */
  lemma BasicProcessSpec(original: Table, tightOrSoft: string)
    ensures var m, r := ModeOf(tightOrSoft), BasicProcess(original, tightOrSoft);
      && IsSubsequence(r, original)
      && KeysDistinct(m, r)
      && (forall x :: x in r ==> IsRelevant(x))
      && (forall i :: FirstOfKey(m, original, i) && IsRelevant(original[i]) ==> original[i] in r)
      && (forall x :: x in DropDuplicates(m, original) && IsRelevant(x) ==> x in r)
      && KeySet(m, r) == RelevantKeys(m, original)
  {
    var m := ModeOf(tightOrSoft);
    var d := DropDuplicates(m, original);
    var r := Where(d, IsRelevant);
    SubsequenceTransitive(r, d, original);
    SubsequenceKeysDistinct(m, r, d);
    SubsequenceMembers(r, d);
    SubsequenceMembers(d, original);
    forall k | k in RelevantKeys(m, original) ensures k in KeySet(m, r) {
      var x :| x in original && IsRelevant(x) && KeyOf(m, x) == k;
      assert k in KeySet(m, d);
      var y :| y in d && KeyOf(m, y) == k;
      KeyDeterminesExpertise(m, x, y);
      assert y in r;
    }
  }

  /** A table of sentinel rows only cleans to the empty table. */
  lemma AllSentinelCleansToEmpty(original: Table, tightOrSoft: string)
    requires forall x :: x in original ==> !IsRelevant(x)
    ensures BasicProcess(original, tightOrSoft) == []
  {
    var d := DropDuplicates(ModeOf(tightOrSoft), original);
    SubsequenceMembers(d, original);
    WhereKeepsNone(d, IsRelevant);
  }

  /** Cleaning a cleaned table again with the same mode changes nothing. */
  lemma BasicProcessIdempotent(original: Table, tightOrSoft: string)
    ensures BasicProcess(BasicProcess(original, tightOrSoft), tightOrSoft)
            == BasicProcess(original, tightOrSoft)
  {
    var m := ModeOf(tightOrSoft);
    var r := BasicProcess(original, tightOrSoft);
    BasicProcessSpec(original, tightOrSoft);
    DropDuplicatesFromDistinct(m, r, {});
    WhereKeepsAll(r, IsRelevant);
  }

  /** The cleaned table has one row per relevant key of the input. */
  lemma BasicProcessLength(original: Table, tightOrSoft: string)
    ensures |BasicProcess(original, tightOrSoft)| == |RelevantKeys(ModeOf(tightOrSoft), original)|
  {
    BasicProcessSpec(original, tightOrSoft);
    DistinctKeysCount(ModeOf(tightOrSoft), BasicProcess(original, tightOrSoft));
  }

  /**
    Tight cleaning never keeps more rows than soft cleaning, because the tight
    columns are among the soft ones.
   */
  lemma TightNoLongerThanSoft(original: Table, tightOrSoft: string)
    requires tightOrSoft != "soft"
    ensures |BasicProcess(original, tightOrSoft)| <= |BasicProcess(original, "soft")|
  {
    BasicProcessLength(original, tightOrSoft);
    BasicProcessLength(original, "soft");
    TightKeysFewer(original);
  }

  lemma TightKeysFewer(original: Table)
    ensures |RelevantKeys(Tight, original)| <= |RelevantKeys(Soft, original)|
  {
    var softKeys := RelevantKeys(Soft, original);
    var f: Key -> Key := TightOfSoft;
    var projected := Image(softKeys, f);
    forall k | k in RelevantKeys(Tight, original) ensures k in projected {
      var x :| x in original && IsRelevant(x) && KeyOf(Tight, x) == k;
      TightKeyProjectsSoftKey(x);
      assert SoftKey(x) in softKeys && f(SoftKey(x)) == k;
    }
    ImageOfSetCard(softKeys, f);
    SetCardMonotone(RelevantKeys(Tight, original), projected);
  }

  // ---------------------------------------------------------------------
  // calc_doctors_per_amount
  // ---------------------------------------------------------------------

  /** Looking up a health fund that is not in the reference table raises `KeyError`. */
  datatype LookupError = KeyError(key: string)

  /** A `None` list admits every row; a given list admits the rows whose service type is in it. */
  function ServiceFilter(serviceList: Option<seq<string>>): ClinicRow -> bool
  {
    (x: ClinicRow) => serviceList.None? || x.servicesTypeDesc in serviceList.value
  }

  /** A `None` list admits every row; a given list admits the rows whose expertise is in it. */
  function ExpertiseFilter(expertiseList: Option<seq<string>>): ClinicRow -> bool
  {
    (x: ClinicRow) => expertiseList.None? || x.expertiseDesc in expertiseList.value
  }

  /** A `None` fund admits every row; a given fund admits the rows of that fund. */
  function KupaFilter(kupa: Option<string>): ClinicRow -> bool
  {
    (x: ClinicRow) => kupa.None? || x.kupa == kupa.value
  }

  /** A row is counted when it passes all three filters. */
  function AdmittedFilter(kupa: Option<string>, expertiseList: Option<seq<string>>,
                          serviceList: Option<seq<string>>): ClinicRow -> bool
  {
    And(And(ServiceFilter(serviceList), ExpertiseFilter(expertiseList)), KupaFilter(kupa))
  }

  /** `services_type_desc.isin(service_list)`, or the whole table for `None`. */
  function NarrowByServices(t: Table, serviceList: Option<seq<string>>): (r: Table)
    ensures r == Where(t, ServiceFilter(serviceList))
  {
    match serviceList
    case None =>
      WhereKeepsAll(t, ServiceFilter(serviceList));
      t
    case Some(l) =>
      WhereCongruent(t, (x: ClinicRow) => x.servicesTypeDesc in l, ServiceFilter(serviceList));
      Where(t, (x: ClinicRow) => x.servicesTypeDesc in l)
  }

  /** `expertise_desc.isin(expertise_list)`, or the whole table for `None`. */
  function NarrowByExpertise(t: Table, expertiseList: Option<seq<string>>): (r: Table)
    ensures r == Where(t, ExpertiseFilter(expertiseList))
  {
    match expertiseList
    case None =>
      WhereKeepsAll(t, ExpertiseFilter(expertiseList));
      t
    case Some(l) =>
      WhereCongruent(t, (x: ClinicRow) => x.expertiseDesc in l, ExpertiseFilter(expertiseList));
      Where(t, (x: ClinicRow) => x.expertiseDesc in l)
  }

  /** `kupa == kupa`, or the whole table for `None`. */
  function NarrowByKupa(t: Table, kupa: Option<string>): (r: Table)
    ensures r == Where(t, KupaFilter(kupa))
  {
    match kupa
    case None =>
      WhereKeepsAll(t, KupaFilter(kupa));
      t
    case Some(k) =>
      WhereCongruent(t, (x: ClinicRow) => x.kupa == k, KupaFilter(kupa));
      Where(t, (x: ClinicRow) => x.kupa == k)
  }

  /**
    The rows counted: by services, then by expertise, then by health fund.
    The three narrowings together keep exactly the rows passing all filters.
   */
  function Narrow(t: Table, kupa: Option<string>, expertiseList: Option<seq<string>>,
                  serviceList: Option<seq<string>>): (r: Table)
    ensures r == Where(t, AdmittedFilter(kupa, expertiseList, serviceList))
  {
    var s := NarrowByServices(t, serviceList);
    var e := NarrowByExpertise(s, expertiseList);
    var k := NarrowByKupa(e, kupa);
    WhereWhere(t, ServiceFilter(serviceList), ExpertiseFilter(expertiseList));
    WhereWhere(t, And(ServiceFilter(serviceList), ExpertiseFilter(expertiseList)), KupaFilter(kupa));
    k
  }

  /**
    The denominator: the national insured total when no fund is named, that
    fund's total when it is one of the four, and a `KeyError` otherwise. A
    denominator that exists is never zero.
   */
  function TotalInsured(kupa: Option<string>): (r: Result<real, LookupError>)
    ensures kupa.None? ==> r == Ok(TotalWithHealthInsurance)
    ensures kupa.Some? && kupa.value in KupotTotalInsured ==> r == Ok(KupotTotalInsured[kupa.value])
    ensures kupa.Some? && kupa.value !in KupotTotalInsured ==> r == Err(KeyError(kupa.value))
    ensures r.Ok? ==> 0.0 < r.value <= TotalWithHealthInsurance
  {
    match kupa
    case None => Ok(TotalWithHealthInsurance)
    case Some(k) =>
      if k in KupotTotalInsured then
        FundTotalsInRange(k);
        Ok(KupotTotalInsured[k])
      else
        Err(KeyError(k))
  }

  /**
    `calc_doctors_per_amount`: the counted rows per `amount` insured people.
    It fails exactly when a named health fund is not in the reference table.
   */
  function DoctorsPerAmount(t: Table, amount: int := 1000, kupa: Option<string> := None,
                            expertiseList: Option<seq<string>> := None,
                            serviceList: Option<seq<string>> := None): (r: Result<real, LookupError>)
    ensures r.Err? <==> kupa.Some? && kupa.value !in KupotTotalInsured
    ensures r.Err? ==> r.error == KeyError(kupa.value)
    ensures r.Ok? ==> TotalInsured(kupa).Ok?
  {
    var rows := Narrow(t, kupa, expertiseList, serviceList);
    match TotalInsured(kupa)
    case Err(e) => Err(e)
    case Ok(total) => Ok(Ratio(|rows|, amount, total))
  }

  /** `len(rows) * amount / total_insured`, in exact arithmetic. */
  function Ratio(count: nat, amount: int, total: real): (r: real)
    requires total > 0.0
    ensures r * total == count as real * amount as real
    ensures amount >= 0 ==> r >= 0.0
  {
    count as real * amount as real / total
  }

  /**
    A successful ratio is the number of rows passing all filters, times
    `amount`, divided by the selected denominator.
   */
  lemma RatioValue(t: Table, amount: int, kupa: Option<string>,
                   expertiseList: Option<seq<string>>, serviceList: Option<seq<string>>)
    requires DoctorsPerAmount(t, amount, kupa, expertiseList, serviceList).Ok?
    ensures DoctorsPerAmount(t, amount, kupa, expertiseList, serviceList).value
            == Ratio(|Where(t, AdmittedFilter(kupa, expertiseList, serviceList))|, amount,
                     TotalInsured(kupa).value)
  {
  }

  /** With no filters the ratio is the whole table per `amount` insured people. */
  lemma RatioUnfiltered(t: Table, amount: int)
    ensures DoctorsPerAmount(t, amount, None, None, None)
            == Ok(Ratio(|t|, amount, TotalWithHealthInsurance))
  {
    WhereKeepsAll(t, AdmittedFilter(None, None, None));
  }

  /** Every counted row passes each filter given, and no more rows are counted than the table has. */
  lemma CountedRowsPassFilters(t: Table, kupa: Option<string>, expertiseList: Option<seq<string>>,
                               serviceList: Option<seq<string>>, x: ClinicRow)
    requires x in Narrow(t, kupa, expertiseList, serviceList)
    ensures x in t
    ensures serviceList.Some? ==> x.servicesTypeDesc in serviceList.value
    ensures expertiseList.Some? ==> x.expertiseDesc in expertiseList.value
    ensures kupa.Some? ==> x.kupa == kupa.value
  {
    SubsequenceMembers(Narrow(t, kupa, expertiseList, serviceList), t);
  }

  /** For a non-negative amount the ratio lies between zero and the unfiltered table's ratio. */
  lemma RatioBounds(t: Table, amount: int, kupa: Option<string>,
                    expertiseList: Option<seq<string>>, serviceList: Option<seq<string>>)
    requires amount >= 0
    requires DoctorsPerAmount(t, amount, kupa, expertiseList, serviceList).Ok?
    ensures 0.0 <= DoctorsPerAmount(t, amount, kupa, expertiseList, serviceList).value
    ensures DoctorsPerAmount(t, amount, kupa, expertiseList, serviceList).value
            <= Ratio(|t|, amount, TotalInsured(kupa).value)
  {
    var rows := Narrow(t, kupa, expertiseList, serviceList);
    SubsequenceMembers(rows, t);
    RatioMonotoneInCount(|rows|, |t|, amount, TotalInsured(kupa).value);
  }

  /** The ratio grows with `amount` for a fixed table and fixed filters. */
  lemma RatioMonotoneInAmount(t: Table, amount1: int, amount2: int, kupa: Option<string>,
                              expertiseList: Option<seq<string>>, serviceList: Option<seq<string>>)
    requires amount1 <= amount2
    requires DoctorsPerAmount(t, amount1, kupa, expertiseList, serviceList).Ok?
    ensures DoctorsPerAmount(t, amount2, kupa, expertiseList, serviceList).Ok?
    ensures DoctorsPerAmount(t, amount1, kupa, expertiseList, serviceList).value
            <= DoctorsPerAmount(t, amount2, kupa, expertiseList, serviceList).value
  {
    var c := |Narrow(t, kupa, expertiseList, serviceList)|;
    RatioMonotoneInAmountOf(c, amount1, amount2, TotalInsured(kupa).value);
  }

  lemma RatioMonotoneInCount(c: nat, n: nat, amount: int, d: real)
    requires c <= n && 0 <= amount && 0.0 < d
    ensures 0.0 <= Ratio(c, amount, d) <= Ratio(n, amount, d)
  {
    var a := amount as real;
    MulMonotone(c as real, n as real, a);
    MulMonotone(0.0, c as real, a);
    DivMonotone(0.0, c as real * a, d);
    DivMonotone(c as real * a, n as real * a, d);
  }

  lemma RatioMonotoneInAmountOf(c: nat, amount1: int, amount2: int, d: real)
    requires amount1 <= amount2 && 0.0 < d
    ensures Ratio(c, amount1, d) <= Ratio(c, amount2, d)
  {
    MulMonotone(amount1 as real, amount2 as real, c as real);
    DivMonotone(c as real * amount1 as real, c as real * amount2 as real, d);
  }

  lemma MulMonotone(x: real, y: real, c: real)
    requires x <= y && 0.0 <= c
    ensures x * c <= y * c && c * x <= c * y
  {
  }

  lemma DivMonotone(x: real, y: real, d: real)
    requires x <= y && 0.0 < d
    ensures x / d <= y / d
  {
    assert y / d - x / d == (y - x) / d;
  }
}
