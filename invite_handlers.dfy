/**
 The six invite handlers as functions of the pool: the four queries, the
 responses of `activate` and `generate_code`, and the pool each of those two
 leaves behind.
 */
module InviteHandlers {
  import opened InvitePool

  /** The exceptions a handler raises (each reaches the client as an internal
      server error). */
  datatype Fault =
    | NoRecordForRedeemer  // check_address: `None['is_used']`
    | CreatorIsNone        // generate_code: `None.address`

  datatype Result<T> = Ok(value: T) | Err(fault: Fault)

  /** The body `activate` returns. */
  datatype ActivateOut = ActivateOut(isSuccess: bool, error: Option<string>)

  /** One element of the list `generate_code` returns. */
  datatype GenerateCodeOut = GenerateCodeOut(
    address: Option<string>,
    code: string,
    creatorType: string,
    isUsed: bool)

  const CodeNotExist := "The code not exist!"

  // ---------------------------------------------------------------------------
  // Queries

  /** check_code: `filter(code=code, is_used=False).exists()`. */
  function CheckCode(pool: Pool, code: string): (canUse: bool)
    ensures canUse <==> exists i :: 0 <= i < |pool| && pool[i].code == code && !pool[i].isUsed
  {
    var hits := Filter(pool, UnusedWithCode(code));
    assert |hits| > 0 ==> hits[0] in pool && UnusedWithCode(code)(hits[0]);
    assert forall i :: 0 <= i < |pool| && UnusedWithCode(code)(pool[i]) ==> pool[i] in hits;
    |hits| > 0
  }

  /** check_address: `is_used` of the first row redeemed by `address`. With no
      such row the query yields None and subscripting it raises. */
  function CheckAddress(pool: Pool, address: string): (r: Result<bool>)
    ensures r.Err? <==> forall i :: 0 <= i < |pool| ==> pool[i].usedUser != Some(address)
    ensures r.Err? ==> r.fault == NoRecordForRedeemer
    ensures r.Ok? ==> exists i :: IsFirst(pool, RedeemedBy(address), i) && r.value == pool[i].isUsed
  {
    match First(pool, RedeemedBy(address))
    case None => Err(NoRecordForRedeemer)
    case Some(i) =>
      var isUsed := pool[i].isUsed;
      Ok(if isUsed then isUsed else false)
  }

  /** get_address_code: the codes of the unused rows created by `address`. */
  function GetAddressCode(pool: Pool, address: string): (codes: seq<string>)
    ensures |codes| <= |pool|
    ensures forall c :: c in codes <==>
      exists i :: 0 <= i < |pool| && pool[i].code == c && pool[i].creator == Some(address) && !pool[i].isUsed
  {
    var rows := Filter(pool, UnusedCreatedBy(address));
    assert forall k :: 0 <= k < |rows| ==> rows[k] in pool && UnusedCreatedBy(address)(rows[k]);
    assert forall i :: 0 <= i < |pool| && UnusedCreatedBy(address)(pool[i]) ==> pool[i] in rows;
    var codes := Codes(rows);
    assert |codes| == |rows| && forall k :: 0 <= k < |rows| ==> codes[k] == rows[k].code;
    codes
  }

  /** get_code_detail: the first row carrying `code`, or null. */
  function GetCodeDetail(pool: Pool, code: string): (detail: Option<InviteCode>)
    ensures detail.None? <==> forall i :: 0 <= i < |pool| ==> pool[i].code != code
    ensures detail.Some? ==>
      detail.value.code == code && exists i :: IsFirst(pool, HasCode(code), i) && pool[i] == detail.value
  {
    match First(pool, HasCode(code))
    case None => None
    case Some(i) => Some(pool[i])
  }

  // ---------------------------------------------------------------------------
  // activate

  /** The two field assignments `activate` makes on the row it found. */
  function Redeem(row: InviteCode, address: string): (redeemed: InviteCode)
    ensures redeemed.isUsed && redeemed.usedUser == Some(address)
    ensures redeemed.code == row.code && redeemed.creator == row.creator
    ensures redeemed.creatorType == row.creatorType
  {
    row.(usedUser := Some(address), isUsed := true)
  }

  /** The pool after `activate(code, address)`: only the first row carrying
      `code` changes, and it becomes used and redeemed by `address` whatever
      its previous state. */
  function Activated(pool: Pool, code: string, address: string): (r: Pool)
    ensures |r| == |pool|
    ensures forall j :: 0 <= j < |pool| && !IsFirst(pool, HasCode(code), j) ==> r[j] == pool[j]
    ensures forall j :: IsFirst(pool, HasCode(code), j) ==>
      r[j].isUsed && r[j].usedUser == Some(address) &&
      r[j].code == pool[j].code && r[j].creator == pool[j].creator && r[j].creatorType == pool[j].creatorType
    ensures forall j :: 0 <= j < |pool| && pool[j].isUsed ==> r[j].isUsed
    ensures Consistent(pool) ==> Consistent(r)
  {
    match First(pool, HasCode(code))
    case None => pool
    case Some(i) => pool[i := Redeem(pool[i], address)]
  }

  /** The body `activate` returns. */
  function ActivateReply(pool: Pool, code: string): (out: ActivateOut)
    ensures out.isSuccess <==> exists j :: 0 <= j < |pool| && pool[j].code == code
    ensures out.isSuccess ==> out.error == None
    ensures !out.isSuccess ==> out.error == Some(CodeNotExist)
  {
    if First(pool, HasCode(code)).None? then ActivateOut(false, Some(CodeNotExist))
    else ActivateOut(true, None)
  }

  // ---------------------------------------------------------------------------
  // generate_code

  /** `if generate_in.address:` is Python truthiness: None and "" both mean no creator. */
  predicate AddressGiven(address: Option<string>)
    ensures AddressGiven(address) <==> address != None && address != Some("")
  {
    address.Some? && address.value != ""
  }

  /** The creator the new rows point at. */
  function CreatorOf(address: Option<string>): (creator: Option<string>)
    ensures creator == None || creator == address
    ensures creator != Some("")
    ensures address.Some? && |address.value| > 0 ==> creator == address
  {
    if AddressGiven(address) then address else None
  }

  /** `create_list`: one unused, unredeemed row per generated code, in order. */
  function NewRecords(codes: seq<string>, creator: Option<string>, creatorType: string): (rows: Pool)
    ensures Codes(rows) == codes
    ensures forall j :: 0 <= j < |rows| ==>
      rows[j].creator == creator && rows[j].creatorType == creatorType &&
      !rows[j].isUsed && rows[j].usedUser == None
  {
    seq(|codes|, i requires 0 <= i < |codes| => InviteCode(codes[i], creator, creatorType, false, None))
  }

  /** The list `generate_code` builds from the inserted rows; reading
      `creator_user.address` of a row without a creator raises. */
  function GenerateResponse(rows: Pool): (out: Result<seq<GenerateCodeOut>>)
    ensures out.Err? <==> exists j :: 0 <= j < |rows| && rows[j].creator.None?
    ensures out.Err? ==> out.fault == CreatorIsNone
    ensures out.Ok? ==> |out.value| == |rows| && forall j :: 0 <= j < |rows| ==>
      out.value[j] == GenerateCodeOut(rows[j].creator, rows[j].code, rows[j].creatorType, rows[j].isUsed)
  {
    if rows == [] then Ok([])
    else match rows[0].creator
      case None => Err(CreatorIsNone)
      case Some(a) =>
        match GenerateResponse(rows[1..])
        case Err(f) => Err(f)
        case Ok(rest) =>
          Ok([GenerateCodeOut(Some(a), rows[0].code, rows[0].creatorType, rows[0].isUsed)] + rest)
  }

  // ---------------------------------------------------------------------------
  // Intended behaviour where the code as written raises

  /** check_address as its fallback `else False` suggests it was meant: an
      address that redeemed nothing is simply not activated. */
  function IsActivated(pool: Pool, address: string): (activated: bool)
    ensures activated <==> CheckAddress(pool, address) == Ok(true)
    ensures Consistent(pool) ==>
      (activated <==> exists i :: 0 <= i < |pool| && pool[i].usedUser == Some(address))
  {
    match First(pool, RedeemedBy(address))
    case None => false
    case Some(i) => pool[i].isUsed
  }

  /** The generate_code response with `address` null for rows without a creator. */
  function GenerateResponseIntended(rows: Pool): (out: seq<GenerateCodeOut>)
    ensures |out| == |rows|
    ensures forall j :: 0 <= j < |rows| ==>
      out[j] == GenerateCodeOut(rows[j].creator, rows[j].code, rows[j].creatorType, rows[j].isUsed)
    ensures GenerateResponse(rows).Ok? ==> GenerateResponse(rows).value == out
  {
    if rows == [] then []
    else
      var head := GenerateCodeOut(rows[0].creator, rows[0].code, rows[0].creatorType, rows[0].isUsed);
      [head] + GenerateResponseIntended(rows[1..])
  }
}
