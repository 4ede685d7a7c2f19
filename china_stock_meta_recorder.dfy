/**
 * The eastmoney stock meta recorder: it picks the stock details that have no
 * profile yet, asks the provider for each one's basic information and its
 * issuance figures, writes them into the row and commits the row.
 *
 * The HTTP calls become a `Provider` (a reply per provider key), the value
 * parsers of the utility library become `Parsers`, and the database session
 * becomes the table the rows are selected from and a log of commits.
 */
module ChinaStockMeta {
  import opened Wrappers
  import opened StockDetails
  import Strings

  // ---------------------------------------------------------------------
  // Provider key

  /** The two exchanges the recorder selects from: Shanghai and Shenzhen. */
  predicate IsMainland(exchange: Exchange)
  {
    exchange.Sh? || exchange.Sz?
  }

  /** The provider's key `fc` for a stock: its code followed by the exchange's suffix. */
  function ProviderKey(code: string, exchange: Exchange): (fc: string)
    requires IsMainland(exchange)
  {
    if exchange == Sh then code + "01" else code + "02"
  }

  /**
   * The value of the loop variable `fc` after the two `if` statements of one
   * iteration, given its value before them (`None` when it is still unbound).
   * An exchange other than `sh` and `sz` leaves the previous value in place.
   */
  function KeyStep(fc: Option<string>, code: string, exchange: Exchange): (next: Option<string>)
    ensures IsMainland(exchange) ==> next == Some(ProviderKey(code, exchange))
    ensures !IsMainland(exchange) ==> next == fc
  {
    var afterSh := if exchange == Sh then Some(code + "01") else fc;
    if exchange == Sz then Some(code + "02") else afterSh
  }

  /**
   * The key is the code followed by two characters, `01` exactly for
   * Shanghai and `02` exactly for Shenzhen.
   */
  lemma ProviderKeyParts(code: string, exchange: Exchange)
    requires IsMainland(exchange)
    ensures var fc := ProviderKey(code, exchange);
      |fc| == |code| + 2 && fc[..|code|] == code &&
      (fc[|code|..] == "01" <==> exchange == Sh) &&
      (fc[|code|..] == "02" <==> exchange == Sz)
  {
  }

  /** Different stocks of the two exchanges never share a provider key. */
  lemma ProviderKeyInjective(code1: string, exchange1: Exchange, code2: string, exchange2: Exchange)
    requires IsMainland(exchange1) && IsMainland(exchange2)
    requires ProviderKey(code1, exchange1) == ProviderKey(code2, exchange2)
    ensures code1 == code2 && exchange1 == exchange2
  {
    ProviderKeyParts(code1, exchange1);
    ProviderKeyParts(code2, exchange2);
    var fc := ProviderKey(code1, exchange1);
    assert code1 == fc[..|code1|] == fc[..|code2|] == code2;
  }

  /** Worked keys, including the stale key kept for an exchange that is not handled. */
  lemma ProviderKeyExamples()
    ensures ProviderKey("600000", Sh) == "60000001"
    ensures ProviderKey("000001", Sz) == "00000102"
    ensures KeyStep(Some("60000001"), "00700", Other("hk")) == Some("60000001")
    ensures KeyStep(None, "00700", Other("hk")) == None
  {
  }

  // ---------------------------------------------------------------------
  // Industry path

  /**
   * The `industries` column: the provider's hyphen-separated industry path,
   * split on `-` and joined again with `,`.
   */
  function IndustryPath(industry: string): (path: string)
    ensures |path| == |industry|
    ensures forall i :: 0 <= i < |industry| ==>
              path[i] == if industry[i] == '-' then ',' else industry[i]
    ensures '-' !in path
  {
    Strings.JoinSplit(industry, '-', ',');
    Strings.Join(Strings.Split(industry, '-'), ',')
  }

  // ---------------------------------------------------------------------
  // Working set

  /** Pairwise different row objects. */
  ghost predicate Distinct(rows: seq<StockDetail>)
  {
    forall i, j :: 0 <= i < j < |rows| ==> rows[i] != rows[j]
  }

  /**
   * The query filter of the constructor: exchange `sh` or `sz`, code among
   * `codes` when codes are given, and no profile yet.
   */
  predicate Wanted(row: StockDetail, codes: Option<seq<string>>)
    reads row
  {
    IsMainland(row.exchange) && (codes.Some? ==> row.code in codes.value) && row.profile.None?
  }

  /** The rows of `table` that pass the filter, in the table's order. */
  function Select(table: seq<StockDetail>, codes: Option<seq<string>>): (selected: seq<StockDetail>)
    reads table
    ensures forall row :: row in selected ==> row in table && Wanted(row, codes)
    ensures forall i :: 0 <= i < |table| && Wanted(table[i], codes) ==> table[i] in selected
    ensures |selected| <= |table|
    ensures Distinct(table) ==> Distinct(selected)
  {
    if table == [] then []
    else
      var rest := Select(table[1..], codes);
      if Wanted(table[0], codes) then
        assert table[0] in table;
        [table[0]] + rest
      else rest
  }

  // ---------------------------------------------------------------------
  // Replies and parsers

  /**
   * The names the recorder looks up in a reply: the `Result` envelope, the
   * two section names, and the field names of each section. A reply's other
   * names are never read and are not represented.
   */
  datatype Key =
    | Result | JiBenZiLiao | FaXingXiangGuan
    | CompRofile | MainBusiness | FoundDate | Industry | Block | Provice
    | PEIssued | IssuePrice | ShareIssued | NetCollection | LotRateOn

  /** A decoded reply: the `Result` envelope maps a section name to that section's fields. */
  type Response = map<Key, map<Key, map<Key, string>>>

  /** The two endpoints, each giving a reply for a provider key. */
  datatype Provider = Provider(basicInfo: string -> Response, issuance: string -> Response)

  /** `to_float`, `pct_to_float` and `to_pd_timestamp`, as total functions that may yield nothing. */
  datatype Parsers = Parsers(
    toFloat: string -> Option<real>,
    pctToFloat: string -> Option<real>,
    toTimestamp: string -> Option<Timestamp>)

  /** The names of the basic-information section, in the order the recorder reads them. */
  const BasicInfoOrder: seq<Key> := [CompRofile, MainBusiness, FoundDate, Industry, Block, Provice]
  /** The names of the issuance section, in the order the recorder reads them. */
  const IssuanceOrder: seq<Key> := [PEIssued, IssuePrice, ShareIssued, NetCollection, LotRateOn]

  /** The first `n` names of `order` are all present in `p`. */
  predicate Reaches(p: map<Key, string>, order: seq<Key>, n: nat)
    requires n <= |order|
  {
    n == 0 || (order[n - 1] in p && Reaches(p, order, n - 1))
  }

  /** Reaching `n` names means each of the first `n` is present. */
  lemma {:induction false} ReachesEvery(p: map<Key, string>, order: seq<Key>, n: nat)
    requires n <= |order| && Reaches(p, order, n)
    ensures forall m :: 0 <= m < n ==> order[m] in p
  {
    if n > 0 {
      ReachesEvery(p, order, n - 1);
    }
  }

  /** `resp['Result'][section]` can be read. */
  predicate HasSection(resp: Response, section: Key)
  {
    Result in resp && section in resp[Result]
  }

  /** `key` is the name whose absence makes `resp['Result'][section][...]` raise a `KeyError`. */
  predicate IsMissing(resp: Response, section: Key, key: Key)
  {
    if Result !in resp then key == Result
    else if section !in resp[Result] then key == section
    else key !in resp[Result][section]
  }

  /** The reply carries every name of `order` in its section. */
  predicate Complete(resp: Response, section: Key, order: seq<Key>)
  {
    HasSection(resp, section) && Reaches(resp[Result][section], order, |order|)
  }

  /** The profile and classification columns `b` hold the basic-information reply. */
  predicate HoldsBasicInfo(b: BasicInfo, resp: Response, ps: Parsers)
    requires Complete(resp, JiBenZiLiao, BasicInfoOrder)
  {
    var p := resp[Result][JiBenZiLiao];
    ReachesEvery(p, BasicInfoOrder, |BasicInfoOrder|);
    assert forall k <- BasicInfoOrder :: k in p;
    b.profile == Some(p[CompRofile]) &&
    b.mainBusiness == Some(p[MainBusiness]) &&
    b.dateOfEstablishment == ps.toTimestamp(p[FoundDate]) &&
    b.industries == Some(IndustryPath(p[Industry])) &&
    b.conceptIndices == Some(p[Block]) &&
    b.areaIndices == Some(p[Provice])
  }

  /** The issuance columns `s` hold the parsed issuance reply. */
  predicate HoldsIssuance(s: Issuance, resp: Response, ps: Parsers)
    requires Complete(resp, FaXingXiangGuan, IssuanceOrder)
  {
    var p := resp[Result][FaXingXiangGuan];
    ReachesEvery(p, IssuanceOrder, |IssuanceOrder|);
    assert forall k <- IssuanceOrder :: k in p;
    s.issuePe == ps.toFloat(p[PEIssued]) &&
    s.price == ps.toFloat(p[IssuePrice]) &&
    s.issues == ps.toFloat(p[ShareIssued]) &&
    s.raisingFund == ps.toFloat(p[NetCollection]) &&
    s.netWinningRate == ps.pctToFloat(p[LotRateOn])
  }

  /** A section's columns after some of its assignments, and the name that stopped them, if any. */
  datatype Applied<C> = Applied(cols: C, missing: Option<Key>)

  /**
   * `a` is what the six assignments from section `p` leave, starting from the
   * columns `b`: each column is assigned exactly when its own name and every
   * name before it are present, the others keep their values, and the
   * `KeyError`, if any, names the first absent name.
   */
  predicate BasicInfoAssigned(b: BasicInfo, p: map<Key, string>, ps: Parsers, a: Applied<BasicInfo>)
  {
    (a.missing.None? <==> Reaches(p, BasicInfoOrder, |BasicInfoOrder|)) &&
    (forall n :: 0 <= n < |BasicInfoOrder| && Reaches(p, BasicInfoOrder, n) && BasicInfoOrder[n] !in p ==>
       a.missing == Some(BasicInfoOrder[n])) &&
    a.cols.profile == (if Reaches(p, BasicInfoOrder, 1) then Some(p[CompRofile]) else b.profile) &&
    a.cols.mainBusiness == (if Reaches(p, BasicInfoOrder, 2) then Some(p[MainBusiness]) else b.mainBusiness) &&
    a.cols.dateOfEstablishment ==
      (if Reaches(p, BasicInfoOrder, 3) then ps.toTimestamp(p[FoundDate]) else b.dateOfEstablishment) &&
    a.cols.industries == (if Reaches(p, BasicInfoOrder, 4) then Some(IndustryPath(p[Industry])) else b.industries) &&
    a.cols.conceptIndices == (if Reaches(p, BasicInfoOrder, 5) then Some(p[Block]) else b.conceptIndices) &&
    a.cols.areaIndices == (if Reaches(p, BasicInfoOrder, 6) then Some(p[Provice]) else b.areaIndices)
  }

  /**
   * `a` is what the five assignments from section `p` leave, starting from the
   * columns `s`, in the same sense.
   */
  predicate IssuanceAssigned(s: Issuance, p: map<Key, string>, ps: Parsers, a: Applied<Issuance>)
  {
    (a.missing.None? <==> Reaches(p, IssuanceOrder, |IssuanceOrder|)) &&
    (forall n :: 0 <= n < |IssuanceOrder| && Reaches(p, IssuanceOrder, n) && IssuanceOrder[n] !in p ==>
       a.missing == Some(IssuanceOrder[n])) &&
    a.cols.issuePe == (if Reaches(p, IssuanceOrder, 1) then ps.toFloat(p[PEIssued]) else s.issuePe) &&
    a.cols.price == (if Reaches(p, IssuanceOrder, 2) then ps.toFloat(p[IssuePrice]) else s.price) &&
    a.cols.issues == (if Reaches(p, IssuanceOrder, 3) then ps.toFloat(p[ShareIssued]) else s.issues) &&
    a.cols.raisingFund == (if Reaches(p, IssuanceOrder, 4) then ps.toFloat(p[NetCollection]) else s.raisingFund) &&
    a.cols.netWinningRate ==
      (if Reaches(p, IssuanceOrder, 5) then ps.pctToFloat(p[LotRateOn]) else s.netWinningRate)
  }

  // ---------------------------------------------------------------------
  // One stock

  /**
   * The basic-information assignments, in the order of the source. A missing
   * name raises before its own assignment, so the columns assigned before it
   * keep their new values.
   */
  function BasicInfoApplied(b: BasicInfo, resp: Response, ps: Parsers): Applied<BasicInfo>
  {
    if Result !in resp then Applied(b, Some(Result))
    else if JiBenZiLiao !in resp[Result] then Applied(b, Some(JiBenZiLiao))
    else BasicInfoFilled(b, resp[Result][JiBenZiLiao], ps)
  }

  /** The six assignments from the basic-information section `p`. */
  function BasicInfoFilled(b: BasicInfo, p: map<Key, string>, ps: Parsers): Applied<BasicInfo>
  {
    if CompRofile !in p then Applied(b, Some(CompRofile)) else
    var b1 := b.(profile := Some(p[CompRofile]));
    if MainBusiness !in p then Applied(b1, Some(MainBusiness)) else
    var b2 := b1.(mainBusiness := Some(p[MainBusiness]));
    if FoundDate !in p then Applied(b2, Some(FoundDate)) else
    var b3 := b2.(dateOfEstablishment := ps.toTimestamp(p[FoundDate]));
    if Industry !in p then Applied(b3, Some(Industry)) else
    var b4 := b3.(industries := Some(IndustryPath(p[Industry])));
    if Block !in p then Applied(b4, Some(Block)) else
    var b5 := b4.(conceptIndices := Some(p[Block]));
    if Provice !in p then Applied(b5, Some(Provice)) else
    Applied(b5.(areaIndices := Some(p[Provice])), None)
  }

  /** The issuance assignments, in the order of the source. */
  function IssuanceApplied(s: Issuance, resp: Response, ps: Parsers): Applied<Issuance>
  {
    if Result !in resp then Applied(s, Some(Result))
    else if FaXingXiangGuan !in resp[Result] then Applied(s, Some(FaXingXiangGuan))
    else IssuanceFilled(s, resp[Result][FaXingXiangGuan], ps)
  }

  /** The five assignments from the issuance section `p`. */
  function IssuanceFilled(s: Issuance, p: map<Key, string>, ps: Parsers): Applied<Issuance>
  {
    if PEIssued !in p then Applied(s, Some(PEIssued)) else
    var s1 := s.(issuePe := ps.toFloat(p[PEIssued]));
    if IssuePrice !in p then Applied(s1, Some(IssuePrice)) else
    var s2 := s1.(price := ps.toFloat(p[IssuePrice]));
    if ShareIssued !in p then Applied(s2, Some(ShareIssued)) else
    var s3 := s2.(issues := ps.toFloat(p[ShareIssued]));
    if NetCollection !in p then Applied(s3, Some(NetCollection)) else
    var s4 := s3.(raisingFund := ps.toFloat(p[NetCollection]));
    if LotRateOn !in p then Applied(s4, Some(LotRateOn)) else
    Applied(s4.(netWinningRate := ps.pctToFloat(p[LotRateOn])), None)
  }

  /** The six assignments stop at the first absent name, with the columns before it assigned. */
  lemma BasicInfoFilledSpec(b: BasicInfo, p: map<Key, string>, ps: Parsers)
    ensures BasicInfoAssigned(b, p, ps, BasicInfoFilled(b, p, ps))
  {
    var a, o := BasicInfoFilled(b, p, ps), BasicInfoOrder;
    assert Reaches(p, o, 1) <==> CompRofile in p;
    assert Reaches(p, o, 2) <==> Reaches(p, o, 1) && MainBusiness in p;
    assert Reaches(p, o, 3) <==> Reaches(p, o, 2) && FoundDate in p;
    assert Reaches(p, o, 4) <==> Reaches(p, o, 3) && Industry in p;
    assert Reaches(p, o, 5) <==> Reaches(p, o, 4) && Block in p;
    assert Reaches(p, o, 6) <==> Reaches(p, o, 5) && Provice in p;
    forall n | 0 <= n < |BasicInfoOrder| && Reaches(p, BasicInfoOrder, n) && BasicInfoOrder[n] !in p
      ensures a.missing == Some(BasicInfoOrder[n])
    {
      assert n == 0 || n == 1 || n == 2 || n == 3 || n == 4 || n == 5;
    }
  }

  /** The five assignments stop at the first absent name, with the columns before it assigned. */
  lemma IssuanceFilledSpec(s: Issuance, p: map<Key, string>, ps: Parsers)
    ensures IssuanceAssigned(s, p, ps, IssuanceFilled(s, p, ps))
  {
    var a, o := IssuanceFilled(s, p, ps), IssuanceOrder;
    assert Reaches(p, o, 1) <==> PEIssued in p;
    assert Reaches(p, o, 2) <==> Reaches(p, o, 1) && IssuePrice in p;
    assert Reaches(p, o, 3) <==> Reaches(p, o, 2) && ShareIssued in p;
    assert Reaches(p, o, 4) <==> Reaches(p, o, 3) && NetCollection in p;
    assert Reaches(p, o, 5) <==> Reaches(p, o, 4) && LotRateOn in p;
    forall n | 0 <= n < |IssuanceOrder| && Reaches(p, IssuanceOrder, n) && IssuanceOrder[n] !in p
      ensures a.missing == Some(IssuanceOrder[n])
    {
      assert n == 0 || n == 1 || n == 2 || n == 3 || n == 4;
    }
  }

  /**
   * The basic-information request completes exactly when the reply carries
   * every name, and then fills all six columns. Otherwise the `KeyError` names
   * the first absent name: `Result`, then `JiBenZiLiao`, then the first absent
   * field, with the columns before that field assigned and the others kept.
   */
  lemma BasicInfoAppliedSpec(b: BasicInfo, resp: Response, ps: Parsers)
    ensures var a := BasicInfoApplied(b, resp, ps);
      (a.missing.None? <==> Complete(resp, JiBenZiLiao, BasicInfoOrder)) &&
      (a.missing.None? ==> HoldsBasicInfo(a.cols, resp, ps)) &&
      (a.missing.Some? ==> IsMissing(resp, JiBenZiLiao, a.missing.value)) &&
      (!HasSection(resp, JiBenZiLiao) ==> a.cols == b) &&
      (HasSection(resp, JiBenZiLiao) ==> BasicInfoAssigned(b, resp[Result][JiBenZiLiao], ps, a))
  {
    if HasSection(resp, JiBenZiLiao) {
      BasicInfoFilledSpec(b, resp[Result][JiBenZiLiao], ps);
    }
  }

  /**
   * The issuance request completes exactly when the reply carries every
   * name, and then fills all five columns. Otherwise the `KeyError` names the
   * first absent name, with the columns before it assigned and the others
   * kept.
   */
  lemma IssuanceAppliedSpec(s: Issuance, resp: Response, ps: Parsers)
    ensures var a := IssuanceApplied(s, resp, ps);
      (a.missing.None? <==> Complete(resp, FaXingXiangGuan, IssuanceOrder)) &&
      (a.missing.None? ==> HoldsIssuance(a.cols, resp, ps)) &&
      (a.missing.Some? ==> IsMissing(resp, FaXingXiangGuan, a.missing.value)) &&
      (!HasSection(resp, FaXingXiangGuan) ==> a.cols == s) &&
      (HasSection(resp, FaXingXiangGuan) ==> IssuanceAssigned(s, resp[Result][FaXingXiangGuan], ps, a))
  {
    if HasSection(resp, FaXingXiangGuan) {
      IssuanceFilledSpec(s, resp[Result][FaXingXiangGuan], ps);
    }
  }

  /** What happens to one row: ready to commit, or the run stops on it with a `KeyError`. */
  datatype Outcome = Committed(rec: Record) | Aborted(rec: Record, missing: Key)

  /**
   * One iteration of the loop for a row of exchange `sh` or `sz`: both
   * requests use the row's own provider key, and the row reaches the commit
   * only when both replies carry every name.
   */
  function Enrich(r: Record, net: Provider, ps: Parsers): (o: Outcome)
    requires IsMainland(r.exchange)
    ensures SameIdentity(o.rec, r)
  {
    var fc := ProviderKey(r.code, r.exchange);
    var a := BasicInfoApplied(r.basic, net.basicInfo(fc), ps);
    var r1 := r.(basic := a.cols);
    if a.missing.Some? then Aborted(r1, a.missing.value)
    else
      var b := IssuanceApplied(r.issuance, net.issuance(fc), ps);
      var r2 := r1.(issuance := b.cols);
      if b.missing.Some? then Aborted(r2, b.missing.value)
      else Committed(r2)
  }

  /**
   * What one row ends up holding: the basic-information columns come from the
   * reply for the row's own key whenever that reply is complete, the issuance
   * columns too when the row is committed; a row whose first reply is
   * incomplete keeps its issuance columns; and the `KeyError` names the first
   * missing name of the reply that raised it, with the columns before it
   * assigned and the later ones as they were.
   */
  lemma EnrichFields(r: Record, net: Provider, ps: Parsers)
    requires IsMainland(r.exchange)
    ensures var fc := ProviderKey(r.code, r.exchange); var o := Enrich(r, net, ps);
      o.Committed? <==>
        Complete(net.basicInfo(fc), JiBenZiLiao, BasicInfoOrder) &&
        Complete(net.issuance(fc), FaXingXiangGuan, IssuanceOrder)
    ensures var fc := ProviderKey(r.code, r.exchange); var o := Enrich(r, net, ps);
      Complete(net.basicInfo(fc), JiBenZiLiao, BasicInfoOrder) ==> HoldsBasicInfo(o.rec.basic, net.basicInfo(fc), ps)
    ensures var fc := ProviderKey(r.code, r.exchange); var o := Enrich(r, net, ps);
      o.Committed? ==> HoldsIssuance(o.rec.issuance, net.issuance(fc), ps)
    ensures var fc := ProviderKey(r.code, r.exchange); var o := Enrich(r, net, ps);
      !Complete(net.basicInfo(fc), JiBenZiLiao, BasicInfoOrder) ==>
        o.Aborted? && o.rec.issuance == r.issuance && IsMissing(net.basicInfo(fc), JiBenZiLiao, o.missing)
    ensures var fc := ProviderKey(r.code, r.exchange); var o := Enrich(r, net, ps);
      Complete(net.basicInfo(fc), JiBenZiLiao, BasicInfoOrder) && o.Aborted? ==>
        IsMissing(net.issuance(fc), FaXingXiangGuan, o.missing)
    ensures var fc := ProviderKey(r.code, r.exchange); var o := Enrich(r, net, ps); var resp := net.basicInfo(fc);
      !Complete(resp, JiBenZiLiao, BasicInfoOrder) ==>
        if HasSection(resp, JiBenZiLiao)
        then BasicInfoAssigned(r.basic, resp[Result][JiBenZiLiao], ps, Applied(o.rec.basic, Some(o.missing)))
        else o.rec.basic == r.basic
    ensures var fc := ProviderKey(r.code, r.exchange); var o := Enrich(r, net, ps); var resp := net.issuance(fc);
      Complete(net.basicInfo(fc), JiBenZiLiao, BasicInfoOrder) && o.Aborted? ==>
        if HasSection(resp, FaXingXiangGuan)
        then IssuanceAssigned(r.issuance, resp[Result][FaXingXiangGuan], ps, Applied(o.rec.issuance, Some(o.missing)))
        else o.rec.issuance == r.issuance
  {
    var fc := ProviderKey(r.code, r.exchange);
    BasicInfoAppliedSpec(r.basic, net.basicInfo(fc), ps);
    IssuanceAppliedSpec(r.issuance, net.issuance(fc), ps);
  }

  /** The basic-information assignments of `run`, on the row object. */
  method RecordBasicInfo(item: StockDetail, resp: Response, ps: Parsers) returns (missing: Option<Key>)
    modifies item
    ensures var a := BasicInfoApplied(old(item.Snapshot().basic), resp, ps);
      item.Snapshot() == old(item.Snapshot()).(basic := a.cols) && missing == a.missing
  {
    if Result !in resp { return Some(Result); }
    if JiBenZiLiao !in resp[Result] { return Some(JiBenZiLiao); }
    missing := FillBasicInfo(item, resp[Result][JiBenZiLiao], ps);
  }

  /** The six assignments from the basic-information section, stopping at the first missing name. */
  method FillBasicInfo(item: StockDetail, p: map<Key, string>, ps: Parsers) returns (missing: Option<Key>)
    modifies item
    ensures var a := BasicInfoFilled(old(item.Snapshot().basic), p, ps);
      item.Snapshot() == old(item.Snapshot()).(basic := a.cols) && missing == a.missing
  {
    // the row's value so far, one assignment at a time
    ghost var r := item.Snapshot();
    if CompRofile !in p { return Some(CompRofile); }
    item.profile := Some(p[CompRofile]);
    r := r.(basic := r.basic.(profile := item.profile));
    assert item.Snapshot() == r;
    if MainBusiness !in p { return Some(MainBusiness); }
    item.mainBusiness := Some(p[MainBusiness]);
    r := r.(basic := r.basic.(mainBusiness := item.mainBusiness));
    assert item.Snapshot() == r;
    if FoundDate !in p { return Some(FoundDate); }
    item.dateOfEstablishment := ps.toTimestamp(p[FoundDate]);
    r := r.(basic := r.basic.(dateOfEstablishment := item.dateOfEstablishment));
    assert item.Snapshot() == r;
    if Industry !in p { return Some(Industry); }
    item.industries := Some(IndustryPath(p[Industry]));
    r := r.(basic := r.basic.(industries := item.industries));
    assert item.Snapshot() == r;
    if Block !in p { return Some(Block); }
    item.conceptIndices := Some(p[Block]);
    r := r.(basic := r.basic.(conceptIndices := item.conceptIndices));
    assert item.Snapshot() == r;
    if Provice !in p { return Some(Provice); }
    item.areaIndices := Some(p[Provice]);
    return None;
  }

  /** The issuance assignments of `run`, on the row object. */
  method RecordIssuance(item: StockDetail, resp: Response, ps: Parsers) returns (missing: Option<Key>)
    modifies item
    ensures var a := IssuanceApplied(old(item.Snapshot().issuance), resp, ps);
      item.Snapshot() == old(item.Snapshot()).(issuance := a.cols) && missing == a.missing
  {
    if Result !in resp { return Some(Result); }
    if FaXingXiangGuan !in resp[Result] { return Some(FaXingXiangGuan); }
    missing := FillIssuance(item, resp[Result][FaXingXiangGuan], ps);
  }

  /** The five assignments from the issuance section, stopping at the first missing name. */
  method FillIssuance(item: StockDetail, p: map<Key, string>, ps: Parsers) returns (missing: Option<Key>)
    modifies item
    ensures var a := IssuanceFilled(old(item.Snapshot().issuance), p, ps);
      item.Snapshot() == old(item.Snapshot()).(issuance := a.cols) && missing == a.missing
  {
    // the row's value so far, one assignment at a time
    ghost var r := item.Snapshot();
    if PEIssued !in p { return Some(PEIssued); }
    item.issuePe := ps.toFloat(p[PEIssued]);
    r := r.(issuance := r.issuance.(issuePe := item.issuePe));
    assert item.Snapshot() == r;
    if IssuePrice !in p { return Some(IssuePrice); }
    item.price := ps.toFloat(p[IssuePrice]);
    r := r.(issuance := r.issuance.(price := item.price));
    assert item.Snapshot() == r;
    if ShareIssued !in p { return Some(ShareIssued); }
    item.issues := ps.toFloat(p[ShareIssued]);
    r := r.(issuance := r.issuance.(issues := item.issues));
    assert item.Snapshot() == r;
    if NetCollection !in p { return Some(NetCollection); }
    item.raisingFund := ps.toFloat(p[NetCollection]);
    r := r.(issuance := r.issuance.(raisingFund := item.raisingFund));
    assert item.Snapshot() == r;
    if LotRateOn !in p { return Some(LotRateOn); }
    item.netWinningRate := ps.pctToFloat(p[LotRateOn]);
    return None;
  }

  /** The body of the loop of `run` for one row, from the two requests to the last assignment. */
  method RecordStock(item: StockDetail, fc: string, net: Provider, ps: Parsers) returns (missing: Option<Key>)
    requires IsMainland(item.exchange) && fc == ProviderKey(item.code, item.exchange)
    modifies item
    ensures Enrich(old(item.Snapshot()), net, ps)
              == if missing.None? then Committed(item.Snapshot()) else Aborted(item.Snapshot(), missing.value)
  {
    missing := RecordBasicInfo(item, net.basicInfo(fc), ps);
    if missing.None? {
      missing := RecordIssuance(item, net.issuance(fc), ps);
    }
  }

  // ---------------------------------------------------------------------
  // The whole run on values

  /** How a run ended: every row committed, or a `KeyError` raised on row `at`. */
  datatype RunOutcome = Completed | Stopped(at: nat, missing: Key)

  /** The number of rows a run committed, out of `n`. */
  function Finished(outcome: RunOutcome, n: nat): nat
  {
    if outcome.Completed? then n else outcome.at
  }

  /** The rows' values after a run, and how the run ended. */
  datatype Enrichment = Enrichment(rows: seq<Record>, outcome: RunOutcome)

  /** All rows are on `sh` or `sz`. */
  predicate AllMainland(rows: seq<Record>)
  {
    forall j :: 0 <= j < |rows| ==> IsMainland(rows[j].exchange)
  }

  /** A run over the rows after `done`, seen from the start of `done`. */
  function Ahead(done: seq<Record>, e: Enrichment): Enrichment
  {
    var outcome := if e.outcome.Completed? then Completed else Stopped(|done| + e.outcome.at, e.outcome.missing);
    Enrichment(done + e.rows, outcome)
  }

  /** `turn` can be taken on every row of `rows`. */
  ghost predicate Takes(turn: Record --> Outcome, rows: seq<Record>)
  {
    forall j :: 0 <= j < |rows| ==> turn.requires(rows[j])
  }

  /**
   * The loop of `run` on the rows' values, for a given treatment `turn` of
   * one row: each row in turn until the first one that raises, which stops
   * the loop with the rows after it untouched.
   */
  function RunRows(rows: seq<Record>, turn: Record --> Outcome): (e: Enrichment)
    requires Takes(turn, rows)
    ensures |e.rows| == |rows|
    ensures e.outcome.Stopped? ==> e.outcome.at < |rows|
    decreases |rows|
  {
    if rows == [] then Enrichment([], Completed)
    else match turn(rows[0])
      case Aborted(r, key) => Enrichment([r] + rows[1..], Stopped(0, key))
      case Committed(r) => Ahead([r], RunRows(rows[1..], turn))
  }

  /** A run in which every row is committed completes with the committed values. */
  lemma {:induction false} RunRowsCompletes(rows: seq<Record>, done: seq<Record>, turn: Record --> Outcome)
    requires Takes(turn, rows) && |done| == |rows|
    requires forall j :: 0 <= j < |rows| ==> turn(rows[j]) == Committed(done[j])
    ensures RunRows(rows, turn) == Enrichment(done, Completed)
    decreases |rows|
  {
    if rows != [] {
      assert turn(rows[0]) == Committed(done[0]);
      forall j | 0 <= j < |rows| - 1
        ensures turn(rows[1..][j]) == Committed(done[1..][j])
      {
        assert turn(rows[j + 1]) == Committed(done[j + 1]);
      }
      RunRowsCompletes(rows[1..], done[1..], turn);
      assert [done[0]] + done[1..] == done;
    }
  }

  /**
   * A run whose rows before `i` are committed and whose row `i` raises stops
   * there, with the rows after it untouched.
   */
  lemma {:induction false} RunRowsStopsAt(rows: seq<Record>, done: seq<Record>, i: nat, r: Record, key: Key,
                                          turn: Record --> Outcome)
    requires Takes(turn, rows) && |done| == i < |rows|
    requires forall j :: 0 <= j < i ==> turn(rows[j]) == Committed(done[j])
    requires turn(rows[i]) == Aborted(r, key)
    ensures RunRows(rows, turn) == Enrichment(done + [r] + rows[i + 1..], Stopped(i, key))
    decreases i
  {
    if i == 0 {
      assert [r] + rows[1..] == done + [r] + rows[1..];
    } else {
      assert turn(rows[0]) == Committed(done[0]);
      forall j | 0 <= j < i - 1
        ensures turn(rows[1..][j]) == Committed(done[1..][j])
      {
        assert turn(rows[j + 1]) == Committed(done[j + 1]);
      }
      assert rows[1..][i - 1] == rows[i];
      RunRowsStopsAt(rows[1..], done[1..], i - 1, r, key, turn);
      assert rows[1..][i - 1 + 1..] == rows[i + 1..];
      assert [done[0]] + (done[1..] + [r] + rows[i + 1..]) == done + [r] + rows[i + 1..];
    }
  }

  /**
   * The same, for rows given pointwise. The result `now` is described row by
   * row so that the loop in `Run` can use this without a sequence equality
   * in its heap context.
   */
  lemma RunRowsStopsAtRows(rows: seq<Record>, done: seq<Record>, i: nat, r: Record, key: Key,
                           turn: Record --> Outcome, now: seq<Record>)
    requires Takes(turn, rows) && |done| == i < |rows| && |now| == |rows|
    requires forall j :: 0 <= j < i ==> turn(rows[j]) == Committed(done[j])
    requires turn(rows[i]) == Aborted(r, key)
    requires forall j :: 0 <= j < i ==> now[j] == done[j]
    requires now[i] == r
    requires forall j :: i < j < |rows| ==> now[j] == rows[j]
    ensures RunRows(rows, turn) == Enrichment(now, Stopped(i, key)) && now[..i] == done
  {
    RunRowsStopsAt(rows, done, i, r, key, turn);
    assert now == done + [r] + rows[i + 1..];
  }

  /** A run keeps every row's code and exchange when each turn does. */
  lemma {:induction false} RunRowsIdentity(rows: seq<Record>, turn: Record --> Outcome)
    requires Takes(turn, rows)
    requires forall j :: 0 <= j < |rows| ==> SameIdentity(turn(rows[j]).rec, rows[j])
    ensures forall j :: 0 <= j < |rows| ==> SameIdentity(RunRows(rows, turn).rows[j], rows[j])
    decreases |rows|
  {
    if rows != [] {
      var e := RunRows(rows, turn);
      var o := turn(rows[0]);
      if o.Committed? {
        var tail := rows[1..];
        forall j | 0 <= j < |tail|
          ensures SameIdentity(turn(tail[j]).rec, tail[j])
        {
          assert tail[j] == rows[j + 1];
        }
        RunRowsIdentity(tail, turn);
        var rest := RunRows(tail, turn);
        assert e.rows == [o.rec] + rest.rows;
        forall j | 0 < j < |rows|
          ensures SameIdentity(e.rows[j], rows[j])
        {
          assert e.rows[j] == rest.rows[j - 1] && rows[j] == tail[j - 1];
        }
      }
    }
  }

  /** The rows before the stopping point are committed by their own turns, in order. */
  lemma {:induction false} RunRowsPrefix(rows: seq<Record>, turn: Record --> Outcome)
    requires Takes(turn, rows)
    ensures var e := RunRows(rows, turn);
      forall j :: 0 <= j < Finished(e.outcome, |rows|) ==> turn(rows[j]) == Committed(e.rows[j])
    decreases |rows|
  {
    if rows != [] {
      var e := RunRows(rows, turn);
      var o := turn(rows[0]);
      if o.Committed? {
        var tail := rows[1..];
        RunRowsPrefix(tail, turn);
        var rest := RunRows(tail, turn);
        assert e == Ahead([o.rec], rest);
        forall j | 0 < j < Finished(e.outcome, |rows|)
          ensures turn(rows[j]) == Committed(e.rows[j])
        {
          assert e.rows[j] == rest.rows[j - 1] && rows[j] == tail[j - 1];
        }
      }
    }
  }

  /**
   * The row a run stopped on holds what its turn left before the `KeyError`,
   * and the rows after it are untouched.
   */
  lemma {:induction false} RunRowsStop(rows: seq<Record>, turn: Record --> Outcome)
    requires Takes(turn, rows)
    requires RunRows(rows, turn).outcome.Stopped?
    ensures var e := RunRows(rows, turn);
      turn(rows[e.outcome.at]) == Aborted(e.rows[e.outcome.at], e.outcome.missing)
    ensures var e := RunRows(rows, turn);
      forall j :: e.outcome.at < j < |rows| ==> e.rows[j] == rows[j]
    decreases |rows|
  {
    var e := RunRows(rows, turn);
    var o := turn(rows[0]);
    if o.Committed? {
      var tail := rows[1..];
      RunRowsStop(tail, turn);
      var rest := RunRows(tail, turn);
      assert e == Ahead([o.rec], rest);
      assert rows[e.outcome.at] == tail[rest.outcome.at];
      forall j | e.outcome.at < j < |rows|
        ensures e.rows[j] == rows[j]
      {
        assert e.rows[j] == rest.rows[j - 1] && rows[j] == tail[j - 1];
      }
    }
  }

  /** One turn of the loop of `run`, for rows of `sh` and `sz`. */
  function Turn(net: Provider, ps: Parsers): Record --> Outcome
  {
    (r: Record) requires IsMainland(r.exchange) => Enrich(r, net, ps)
  }

  /** The loop of `run` on the rows' values. */
  function EnrichAll(rows: seq<Record>, net: Provider, ps: Parsers): Enrichment
    requires AllMainland(rows)
  {
    RunRows(rows, Turn(net, ps))
  }

  /**
   * A run in which every row is committed by its own turn completes with the
   * committed values. The result `now` is described row by row so that `Run`
   * can use this without a sequence equality in its heap context.
   */
  lemma EnrichAllCompletes(rows: seq<Record>, done: seq<Record>, net: Provider, ps: Parsers, now: seq<Record>)
    requires AllMainland(rows) && |done| == |rows| && |now| == |rows|
    requires forall j :: 0 <= j < |rows| ==> Enrich(rows[j], net, ps) == Committed(done[j])
    requires forall j :: 0 <= j < |rows| ==> now[j] == done[j]
    ensures EnrichAll(rows, net, ps) == Enrichment(now, Completed)
  {
    RunRowsCompletes(rows, done, Turn(net, ps));
    assert now == done;
  }

  /**
   * The values the rows hold when the run stops on row `i`: the committed
   * rows before it, the row as its turn left it, and the untouched rows after
   * it, described row by row as in `EnrichAllCompletes`.
   */
  lemma EnrichAllStopsAt(rows: seq<Record>, done: seq<Record>, i: nat, r: Record, key: Key,
                         net: Provider, ps: Parsers, now: seq<Record>)
    requires AllMainland(rows) && |done| == i < |rows| && |now| == |rows|
    requires forall j :: 0 <= j < i ==> Enrich(rows[j], net, ps) == Committed(done[j])
    requires Enrich(rows[i], net, ps) == Aborted(r, key)
    requires forall j :: 0 <= j < i ==> now[j] == done[j]
    requires now[i] == r
    requires forall j :: i < j < |rows| ==> now[j] == rows[j]
    ensures var e := EnrichAll(rows, net, ps);
      e.rows == now && e.outcome == Stopped(i, key) && e.rows[..i] == done
  {
    RunRowsStopsAtRows(rows, done, i, r, key, Turn(net, ps), now);
  }

  /** No row changes its code or exchange during a run. */
  lemma EnrichAllIdentity(rows: seq<Record>, net: Provider, ps: Parsers)
    requires AllMainland(rows)
    ensures forall j :: 0 <= j < |rows| ==> SameIdentity(EnrichAll(rows, net, ps).rows[j], rows[j])
  {
    RunRowsIdentity(rows, Turn(net, ps));
  }

  /** A run that completes leaves every row with a profile, so the next selection skips them all. */
  lemma CompletedRunFillsProfiles(rows: seq<Record>, net: Provider, ps: Parsers)
    requires AllMainland(rows)
    requires EnrichAll(rows, net, ps).outcome.Completed?
    ensures forall j :: 0 <= j < |rows| ==> EnrichAll(rows, net, ps).rows[j].basic.profile.Some?
  {
    RunRowsPrefix(rows, Turn(net, ps));
    forall j | 0 <= j < |rows|
      ensures EnrichAll(rows, net, ps).rows[j].basic.profile.Some?
    {
      EnrichFields(rows[j], net, ps);
    }
  }

  // ---------------------------------------------------------------------
  // The recorder

  /** The values of `rows`, in order. */
  ghost function Snapshots(rows: seq<StockDetail>): (values: seq<Record>)
    reads rows
    ensures |values| == |rows|
    ensures forall j :: 0 <= j < |rows| ==> values[j] == rows[j].Snapshot()
  {
    if rows == [] then [] else [rows[0].Snapshot()] + Snapshots(rows[1..])
  }

  class ChinaStockMetaRecorder {
    var codes: Option<seq<string>>
    /** The working set, in query order. */
    var entities: seq<StockDetail>
    /** The rows as each `session.commit()` wrote them, oldest first. */
    ghost var commits: seq<Record>

    ghost predicate Valid()
      reads this, entities
    {
      Distinct(entities) && forall j :: 0 <= j < |entities| ==> IsMainland(entities[j].exchange)
    }

    /** Selects the working set from the rows of `table` (the non-forced path). */
    constructor (table: seq<StockDetail>, codes: Option<seq<string>>)
      requires Distinct(table)
      ensures this.codes == codes && entities == Select(table, codes) && commits == []
      ensures Valid()
      ensures forall row :: row in entities ==> row.profile.None?
    {
      this.codes := codes;
      entities := Select(table, codes);
      commits := [];
      new;
      forall j | 0 <= j < |entities|
        ensures IsMainland(entities[j].exchange)
      {
        assert entities[j] in entities;
      }
    }

    /**
     * The body of the loop for row `i` given its provider key: the two
     * requests and the assignments to that row, which alone changes.
     */
    method RecordRow(i: nat, fc: string, net: Provider, ps: Parsers) returns (missing: Option<Key>)
      requires Valid() && i < |entities|
      requires fc == ProviderKey(entities[i].code, entities[i].exchange)
      modifies entities[i]
      ensures Valid()
      ensures forall j :: 0 <= j < |entities| && j != i ==> entities[j].Snapshot() == old(entities[j].Snapshot())
      ensures Enrich(old(entities[i].Snapshot()), net, ps)
                == if missing.None? then Committed(entities[i].Snapshot())
                   else Aborted(entities[i].Snapshot(), missing.value)
    {
      var item := entities[i];
      missing := RecordStock(item, fc, net, ps);
      forall j | 0 <= j < |entities| && j != i
        ensures entities[j].Snapshot() == old(entities[j].Snapshot())
      {
        assert entities[j] != item;
      }
    }

    /**
     * The state of `run` before row `i`: the rows before `i` hold their
     * committed values `done`, the others their values `before` at the start,
     * every row before `i` was committed by its own turn, and the commit log
     * has grown from `start` by exactly `done`.
     */
    ghost predicate Progress(i: nat, start: seq<Record>, before: seq<Record>, done: seq<Record>,
                             net: Provider, ps: Parsers)
      reads this, entities
    {
      i <= |entities| && |done| == i && |before| == |entities| && AllMainland(before) && Valid() &&
      commits == start + done &&
      (forall j :: 0 <= j < i ==> entities[j].Snapshot() == done[j]) &&
      (forall j :: i <= j < |entities| ==> entities[j].Snapshot() == before[j]) &&
      (forall j {:trigger Enrich(before[j], net, ps)} :: 0 <= j < i ==> Enrich(before[j], net, ps) == Committed(done[j]))
    }

    /**
     * One turn of the loop of `run` on row `i`, with the key left by the
     * previous turn: the key update, both requests and assignments, and the
     * commit when they all succeed.
     */
    method Step(i: nat, fc: Option<string>, net: Provider, ps: Parsers,
                ghost start: seq<Record>, ghost before: seq<Record>, ghost done: seq<Record>)
      returns (next: Option<string>, missing: Option<Key>)
      requires Progress(i, start, before, done, net, ps) && i < |entities|
      modifies entities[i], this`commits
      ensures Valid()
      ensures next == Some(ProviderKey(entities[i].code, entities[i].exchange))
      ensures missing.None? ==> Progress(i + 1, start, before, done + [entities[i].Snapshot()], net, ps)
      ensures missing.Some? ==>
        commits == start + done &&
        var e := EnrichAll(before, net, ps);
        Snapshots(entities) == e.rows && e.outcome == Stopped(i, missing.value) && e.rows[..i] == done
    {
      next := KeyStep(fc, entities[i].code, entities[i].exchange);
      // `next` is bound, and to this row's key, because the row is on `sh` or `sz`
      missing := RecordRow(i, next.value, net, ps);
      ghost var row := entities[i].Snapshot();
      if missing.Some? {
        EnrichAllStopsAt(before, done, i, row, missing.value, net, ps, Snapshots(entities));
      } else {
        commits := commits + [row];
      }
    }

    /**
     * Enriches the working set row by row and commits each row once both
     * replies are applied. A `KeyError` stops the run on that row: the rows
     * before it stay committed, the row itself keeps its uncommitted
     * assignments, and the rows after it are not touched.
     */
    method Run(net: Provider, ps: Parsers) returns (outcome: RunOutcome)
      requires Valid()
      modifies this`commits, entities
      ensures Valid()
      ensures var e := EnrichAll(old(Snapshots(entities)), net, ps);
        Snapshots(entities) == e.rows && outcome == e.outcome &&
        commits == old(commits) + e.rows[..Finished(outcome, |entities|)]
    {
      var fc: Option<string> := None;
      var i := 0;
      // the rows' values before the run, and after enrichment for the rows done so far
      ghost var before := Snapshots(entities);
      ghost var done: seq<Record> := [];
      while i < |entities|
        invariant Progress(i, old(commits), before, done, net, ps)
      {
        var missing;
        fc, missing := Step(i, fc, net, ps, old(commits), before, done);
        if missing.Some? {
          return Stopped(i, missing.value);
        }
        done := done + [entities[i].Snapshot()];
        i := i + 1;
      }
      EnrichAllCompletes(before, done, net, ps, Snapshots(entities));
      return Completed;
    }
  }
}
