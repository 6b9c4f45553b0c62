/** app/crm/serializers.py: the two date formatters and the computed fields of
    the POS and POS-company serializers. */
module CrmSerializers {
  import opened Common
  import opened Text
  import opened Table
  import opened CoreModels

  // ---------------------------------------------------------------------------
  // dateToString
  // ---------------------------------------------------------------------------

  /** dateToString: "Y-MM-DD", the year unpadded, month and day padded to two
      digits when below 10. Splitting the text on '-' gives the three parts. */
  function DateToString(d: Date): (s: string)
    ensures Split(s, '-') == [NatToString(d.year), Pad2(d.month), Pad2(d.day)]
    ensures AllDigits(Pad2(d.month)) && ParseNat(Pad2(d.month)) == d.month
    ensures AllDigits(Pad2(d.day)) && ParseNat(Pad2(d.day)) == d.day
  {
    DigitsHaveNo(NatToString(d.year), '-');
    DigitsHaveNo(Pad2(d.month), '-');
    DigitsHaveNo(Pad2(d.day), '-');
    SplitThree(NatToString(d.year), Pad2(d.month), Pad2(d.day), '-');
    NatToString(d.year) + "-" + Pad2(d.month) + "-" + Pad2(d.day)
  }

  /** The reading side of the format: three '-'-separated digit groups. */
  function ParseDate(s: string): Option<Date> {
    var parts := Split(s, '-');
    if |parts| == 3 && AllDigits(parts[0]) && AllDigits(parts[1]) && AllDigits(parts[2]) then
      Some(Date(ParseNat(parts[0]), ParseNat(parts[1]), ParseNat(parts[2])))
    else None
  }

  /** Splitting the output on '-' gives back year, month and day. */
  lemma DateToStringRoundTrip(d: Date)
    ensures ParseDate(DateToString(d)) == Some(d)
  {
    ParseNatToString(d.year);
  }

  /** Years 1000..9999 with a month and a day below 100 print as ten characters. */
  lemma DateToStringLength(d: Date)
    requires 1000 <= d.year <= 9999 && d.month < 100 && d.day < 100
    ensures |DateToString(d)| == 10
  {
    NatToStringFourDigits(d.year);
  }

  lemma NatToString2020()
    ensures NatToString(2020) == "2020"
  {
    assert NatToString(2) == "2" && NatToString(20) == "20" && NatToString(202) == "202";
  }

  lemma DateToStringExample()
    ensures DateToString(Date(2020, 1, 5)) == "2020-01-05"
  {
    NatToString2020();
  }

  // ---------------------------------------------------------------------------
  // dateTimeToString
  // ---------------------------------------------------------------------------

  /** dateTimeToString as written: for a day below 10 the padded day is assigned
      to the month variable, so the month is lost and the day prints unpadded;
      hour and minute are unpadded and three spaces separate date and time. */
  function DateTimeToString(dt: DateTime): (s: string)
    ensures dt.date.day >= 10 ==> s == DateTimeToStringIntended(dt)
    ensures dt.date.day < 10 ==> s != DateTimeToStringIntended(dt)
  {
    var d := dt.date;
    var month := if d.month < 10 then "0" + NatToString(d.month) else NatToString(d.month);
    var month := if d.day < 10 then "0" + NatToString(d.day) else month;
    NatToString(d.year) + "-" + month + "-" + NatToString(d.day)
      + "   " + NatToString(dt.hour) + ":" + NatToString(dt.minute)
  }

  /** Two datetimes that differ only in their month print the same whenever the
      day is below 10. */
  lemma DateTimeToStringLosesMonth(a: DateTime, b: DateTime)
    requires a.date.day < 10 && a == b.(date := b.date.(month := a.date.month))
    ensures DateTimeToString(a) == DateTimeToString(b)
  {
  }

  /** A day below 10 takes the month's place. */
  lemma DateTimeToStringDayBelowTen()
    ensures DateTimeToString(DateTime(Date(2020, 12, 5), 12, 30)) == "2020-05-5   12:30"
  {
    NatToString2020();
    assert NatToString(12) == "12" && NatToString(30) == "30";
  }

  /** Hour and minute print unpadded. */
  lemma DateTimeToStringUnpaddedTime()
    ensures DateTimeToString(DateTime(Date(2020, 3, 15), 9, 5)) == "2020-03-15   9:5"
  {
    NatToString2020();
    assert NatToString(15) == "15";
  }

  /** The evident intent: the date part is exactly dateToString's. Unlike the
      formatter as written, no two datetimes share a text: it reads back. */
  function DateTimeToStringIntended(dt: DateTime): (s: string)
    ensures ParseDateTime(s) == Some(dt)
  {
    DateToStringHasNoSpace(dt.date);
    ParseDateTimeOf(DateToString(dt.date), dt.hour, dt.minute);
    DateToStringRoundTrip(dt.date);
    DateToString(dt.date) + "   " + NatToString(dt.hour) + ":" + NatToString(dt.minute)
  }

  /** Reads "<date>   <hour>:<minute>" back. */
  function ParseDateTime(s: string): Option<DateTime> {
    var parts := Split(s, ' ');
    if |parts| == 4 && parts[1] == [] && parts[2] == [] then
      var time := Split(parts[3], ':');
      match ParseDate(parts[0])
      case None => None
      case Some(d) =>
        if |time| == 2 && AllDigits(time[0]) && AllDigits(time[1]) then
          Some(DateTime(d, ParseNat(time[0]), ParseNat(time[1])))
        else None
    else None
  }

  lemma DateToStringHasNoSpace(d: Date)
    ensures ' ' !in DateToString(d)
  {
    DigitsHaveNo(NatToString(d.year), ' ');
    DigitsHaveNo(Pad2(d.month), ' ');
    DigitsHaveNo(Pad2(d.day), ' ');
  }

  /** Reading "<date text>   <time text>" once both parts are known to split cleanly. */
  lemma ParseDateTimeParts(date: string, time: string, hour: nat, minute: nat)
    requires ' ' !in date && ' ' !in time
    requires Split(time, ':') == [NatToString(hour), NatToString(minute)]
    ensures ParseDate(date).None? ==> ParseDateTime(date + "   " + time).None?
    ensures ParseDate(date).Some? ==>
      ParseDateTime(date + "   " + time) == Some(DateTime(ParseDate(date).value, hour, minute))
  {
    SplitDateAndTime(date, time);
    ParseNatToString(hour);
    ParseNatToString(minute);
  }

  /** Reading "<date text>   <hour>:<minute>" comes down to reading the date text. */
  lemma ParseDateTimeOf(date: string, hour: nat, minute: nat)
    requires ' ' !in date
    ensures ParseDate(date).None? ==>
      ParseDateTime(date + "   " + NatToString(hour) + ":" + NatToString(minute)).None?
    ensures ParseDate(date).Some? ==>
      ParseDateTime(date + "   " + NatToString(hour) + ":" + NatToString(minute))
      == Some(DateTime(ParseDate(date).value, hour, minute))
  {
    var time := NatToString(hour) + ":" + NatToString(minute);
    TimeParts(hour, minute);
    assert date + "   " + NatToString(hour) + ":" + NatToString(minute) == date + "   " + time;
    ParseDateTimeParts(date, time, hour, minute);
  }

  /** The text the formatter as written produces for a day below 10 reads back
      with the day in the month's place. */
  lemma DateTimeToStringReadsDayAsMonth(dt: DateTime)
    requires dt.date.day < 10
    ensures ParseDateTime(DateTimeToString(dt)) == Some(dt.(date := dt.date.(month := dt.date.day)))
  {
    var d := dt.date;
    var y := NatToString(d.year);
    var day := NatToString(d.day);
    var date := y + "-" + ("0" + day) + "-" + day;
    ParseNatLeadingZero(day);
    DigitsHaveNo(y, '-');
    DigitsHaveNo("0" + day, '-');
    DigitsHaveNo(day, '-');
    SplitThree(y, "0" + day, day, '-');
    DigitsHaveNo(y, ' ');
    DigitsHaveNo("0" + day, ' ');
    DigitsHaveNo(day, ' ');
    assert ' ' !in date;
    ParseNatToString(d.year);
    ParseNatToString(d.day);
    assert ParseDate(date) == Some(d.(month := d.day));
    ParseDateTimeOf(date, dt.hour, dt.minute);
    assert DateTimeToString(dt) == date + "   " + NatToString(dt.hour) + ":" + NatToString(dt.minute);
  }

  lemma DateTimeToStringMisread()
    ensures ParseDateTime(DateTimeToString(DateTime(Date(2020, 12, 5), 12, 30)))
            == Some(DateTime(Date(2020, 5, 5), 12, 30))
  {
    DateTimeToStringReadsDayAsMonth(DateTime(Date(2020, 12, 5), 12, 30));
  }

  // ---------------------------------------------------------------------------
  // PosSerializer.get_contract_id
  // ---------------------------------------------------------------------------

  /** live_date <= today <= end_date for the contract with this key. The
      contract always exists while the foreign keys hold (References). */
  predicate ContractActive(contracts: seq<Contract>, id: Pk, today: Date) {
    match Get(contracts, ContractKey, id)
    case None => false
    case Some(c) => DateLe(c.liveDate, today) && DateLe(today, c.endDate)
  }

  /** A ContractPOS row that ties this POS to a contract running today. */
  predicate ActiveFor(cp: ContractPOS, contracts: seq<Contract>, pos: Pk, today: Date) {
    cp.pos == pos && ContractActive(contracts, cp.contract, today)
  }

  predicate InActiveContract(cps: seq<ContractPOS>, contracts: seq<Contract>, pos: Pk, today: Date) {
    exists k :: 0 <= k < |cps| && ActiveFor(cps[k], contracts, pos, today)
  }

  /** get_contract_id: the contract of the first ContractPOS row of this POS
      whose contract runs today, or 0 when there is none. */
  function GetContractId(cps: seq<ContractPOS>, contracts: seq<Contract>, pos: Pk, today: Date): (r: nat)
    ensures r == 0 <==> !InActiveContract(cps, contracts, pos, today)
    ensures r != 0 ==> ContractActive(contracts, r, today)
    ensures r != 0 ==> exists k :: 0 <= k < |cps| && cps[k].pos == pos && cps[k].contract == r
  {
    if cps == [] then 0
    else if ActiveFor(cps[0], contracts, pos, today) then cps[0].contract
    else
      var r := GetContractId(cps[1..], contracts, pos, today);
      assert InActiveContract(cps[1..], contracts, pos, today) <==> InActiveContract(cps, contracts, pos, today) by {
        if InActiveContract(cps, contracts, pos, today) {
          var k :| 0 <= k < |cps| && ActiveFor(cps[k], contracts, pos, today);
          assert k != 0 && cps[1..][k - 1] == cps[k];
        }
      }
      r
  }

  /** The result is the contract of the first qualifying row, in store order. */
  lemma {:induction false} GetContractIdFirst(cps: seq<ContractPOS>, contracts: seq<Contract>, pos: Pk, today: Date, k: nat)
    requires k < |cps| && ActiveFor(cps[k], contracts, pos, today)
    requires forall j :: 0 <= j < k ==> !ActiveFor(cps[j], contracts, pos, today)
    ensures GetContractId(cps, contracts, pos, today) == cps[k].contract
  {
    if k > 0 {
      assert !ActiveFor(cps[0], contracts, pos, today);
      forall j | 0 <= j < k - 1 ensures !ActiveFor(cps[1..][j], contracts, pos, today) {
        assert cps[1..][j] == cps[j + 1];
      }
      GetContractIdFirst(cps[1..], contracts, pos, today, k - 1);
    }
  }

  // ---------------------------------------------------------------------------
  // POSCompanySerializer.get_model_count
  // ---------------------------------------------------------------------------

  /** get_model_count: instance.pos_models.count(). */
  function ModelCount(models: seq<PosModel>, company: Pk): (n: nat)
    ensures n <= |models|
    ensures n == 0 <==> forall k :: 0 <= k < |models| ==> models[k].company != company
  {
    if models == [] then 0
    else
      var rest := ModelCount(models[1..], company);
      assert forall k :: 1 <= k < |models| ==> models[k] == models[1..][k - 1];
      (if models[0].company == company then 1 else 0) + rest
  }

  /** Adding a model of the company raises the count by one; any other leaves it. */
  lemma {:induction false} ModelCountAppend(models: seq<PosModel>, m: PosModel, company: Pk)
    ensures ModelCount(models + [m], company) == ModelCount(models, company) + (if m.company == company then 1 else 0)
  {
    if models != [] {
      assert (models + [m])[1..] == models[1..] + [m];
      ModelCountAppend(models[1..], m, company);
    }
  }
}
