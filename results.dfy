/** Outcome codes of an at-bat (app.py:10, app.py:136, app.py:237-243).

    The recording screen offers fourteen codes; the stored value is free text,
    so any other text is kept verbatim as `Other`. */
module Results {

  datatype Result =
    | StrikeOut       // 三振
    | Walk            // 四壞
    | HitByPitch      // 觸身
    | InfieldHit      // 內安
    | Single          // 一安
    | Double          // 二安
    | Triple          // 三安
    | HomeRun         // 全壘
    | ReachedOnError  // 失誤
    | DoublePlay      // 雙殺
    | Sacrifice       // 犧牲
    | FlyOut          // 外飛
    | GroundOut       // 內滾
    | InfieldFly      // 內飛
    | Other(code: string)

  /** The fourteen codes, in the order the recording screen lists them. */
  const KnownCodes: seq<string> :=
    ["三振", "四壞", "觸身", "內安", "一安", "二安", "三安",
     "全壘", "失誤", "雙殺", "犧牲", "外飛", "內滾", "內飛"]

  /** The text stored for an outcome. */
  function Code(r: Result): string {
    match r
    case StrikeOut => "三振"
    case Walk => "四壞"
    case HitByPitch => "觸身"
    case InfieldHit => "內安"
    case Single => "一安"
    case Double => "二安"
    case Triple => "三安"
    case HomeRun => "全壘"
    case ReachedOnError => "失誤"
    case DoublePlay => "雙殺"
    case Sacrifice => "犧牲"
    case FlyOut => "外飛"
    case GroundOut => "內滾"
    case InfieldFly => "內飛"
    case Other(s) => s
  }

  /** A value in normal form: free text never spells one of the known codes. */
  predicate Canonical(r: Result) {
    r.Other? ==> r.code !in KnownCodes
  }

  /** Reads the submitted text as an outcome; the text is kept unchanged. */
  function FromCode(s: string): (r: Result)
    ensures Code(r) == s
    ensures Canonical(r)
    ensures r.Other? <==> s !in KnownCodes
  {
    if s == "三振" then StrikeOut
    else if s == "四壞" then Walk
    else if s == "觸身" then HitByPitch
    else if s == "內安" then InfieldHit
    else if s == "一安" then Single
    else if s == "二安" then Double
    else if s == "三安" then Triple
    else if s == "全壘" then HomeRun
    else if s == "失誤" then ReachedOnError
    else if s == "雙殺" then DoublePlay
    else if s == "犧牲" then Sacrifice
    else if s == "外飛" then FlyOut
    else if s == "內滾" then GroundOut
    else if s == "內飛" then InfieldFly
    else Other(s)
  }

  /** Reading back the stored text of a normal-form outcome gives the outcome. */
  lemma FromCodeOfCode(r: Result)
    requires Canonical(r)
    ensures FromCode(Code(r)) == r
  {
    if r.Other? {
      assert r.code !in KnownCodes;
    }
  }

  /** The result-to-outs table; every other code, known or not, is worth 0 outs. */
  const OutTable: map<string, nat> :=
    map["三振" := 1, "雙殺" := 2, "外飛" := 1, "內滾" := 1, "內飛" := 1, "犧牲" := 1]

  /** Outs an outcome contributes, looked up by its text with default 0. */
  function OutsOf(r: Result): (o: nat)
    ensures o <= 2
    ensures o > 0 <==> Code(r) in OutTable
  {
    if Code(r) in OutTable then OutTable[Code(r)] else 0
  }

  /** Exactly the five out codes are worth one out and a double play two;
      hits, walks, errors and any unknown text are worth none. */
  lemma OutsOfOutcome(r: Result)
    requires Canonical(r)
    ensures OutsOf(r) == 2 <==> r == DoublePlay
    ensures OutsOf(r) == 1 <==> r in {StrikeOut, FlyOut, GroundOut, InfieldFly, Sacrifice}
    ensures OutsOf(r) <= 2
  {
    if r.Other? {
      assert r.code !in KnownCodes;
      assert r.code !in OutTable;
    }
  }

  /** Counted as an official at-bat: everything but a walk, a hit-by-pitch and a sacrifice. */
  predicate CountsAsAtBat(r: Result)
    ensures Canonical(r) ==> (CountsAsAtBat(r) <==> !(r.Walk? || r.HitByPitch? || r.Sacrifice?))
  {
    Code(r) !in ["四壞", "觸身", "犧牲"]
  }

  /** A base hit. */
  predicate IsHit(r: Result)
    ensures Canonical(r) ==>
              (IsHit(r) <==> r.InfieldHit? || r.Single? || r.Double? || r.Triple? || r.HomeRun?)
  {
    Code(r) in ["內安", "一安", "二安", "三安", "全壘"]
  }

  /** A home run. */
  predicate IsHomeRun(r: Result)
    ensures Canonical(r) ==> (IsHomeRun(r) <==> r.HomeRun?)
  {
    Code(r) == "全壘"
  }

  /** A home run is a hit, and a hit is an at-bat. */
  lemma HitClassesNested(r: Result)
    ensures IsHomeRun(r) ==> IsHit(r)
    ensures IsHit(r) ==> CountsAsAtBat(r)
  {
  }
}
