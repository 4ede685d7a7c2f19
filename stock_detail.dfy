/**
 * The `StockDetail` row as the meta recorder sees it: the identity columns it
 * reads and the eleven columns it writes. Other columns of the table are not
 * part of this model.
 */
module StockDetails {
  import opened Wrappers

  /** A pandas timestamp, as nanoseconds since the epoch. */
  type Timestamp = int

  /**
   * The `exchange` column. The recorder only ever compares it with `sh` and
   * `sz`; any other value, such as `hk`, is kept under `Other`, so each value
   * of the column has exactly one encoding.
   */
  datatype Exchange = Sh | Sz | Other(name: OtherExchange)

  /** An `exchange` value other than `sh` and `sz`. */
  type OtherExchange = name: string | name != "sh" && name != "sz" witness "hk"

  /** The profile and classification columns, filled from the basic-information reply. */
  datatype BasicInfo = BasicInfo(
    profile: Option<string>,
    mainBusiness: Option<string>,
    dateOfEstablishment: Option<Timestamp>,
    industries: Option<string>,
    conceptIndices: Option<string>,
    areaIndices: Option<string>)

  /** The issuance columns, filled from the issuance reply. */
  datatype Issuance = Issuance(
    issuePe: Option<real>,
    price: Option<real>,
    issues: Option<real>,
    raisingFund: Option<real>,
    netWinningRate: Option<real>)

  /** The value of a `StockDetail` row at one moment. */
  datatype Record = Record(code: string, exchange: Exchange, basic: BasicInfo, issuance: Issuance)

  /** A row loaded into the session; the recorder assigns its columns in place. */
  class StockDetail {
    var code: string
    var exchange: Exchange
    var profile: Option<string>
    var mainBusiness: Option<string>
    var dateOfEstablishment: Option<Timestamp>
    var industries: Option<string>
    var conceptIndices: Option<string>
    var areaIndices: Option<string>
    var issuePe: Option<real>
    var price: Option<real>
    var issues: Option<real>
    var raisingFund: Option<real>
    var netWinningRate: Option<real>

    /** The row's current column values. */
    function Snapshot(): Record
      reads this
    {
      Record(code, exchange,
             BasicInfo(profile, mainBusiness, dateOfEstablishment, industries, conceptIndices, areaIndices),
             Issuance(issuePe, price, issues, raisingFund, netWinningRate))
    }
  }

  /** Rows are told apart by code and exchange. */
  predicate SameIdentity(a: Record, b: Record)
  {
    a.code == b.code && a.exchange == b.exchange
  }
}
