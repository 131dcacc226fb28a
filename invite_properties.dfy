/**
 How the invite handlers interact: what check_code, check_address,
 get_address_code and get_code_detail answer after an activation or a
 generation, and the behaviour the routes have because `activate` never
 looks at `is_used`.
 */
module InviteProperties {
  import opened InvitePool
  import opened InviteHandlers

  /** `.first()` is the head of the matching `filter(...)`: get_code_detail
      returns the head of `filter(code=code)` and check_address reads the
      head of `filter(used_user__address=address)`. */
  lemma FirstRowIsHeadOfQuery(pool: Pool, code: string, address: string)
    ensures GetCodeDetail(pool, code).Some? ==>
      |Filter(pool, HasCode(code))| > 0 && GetCodeDetail(pool, code).value == Filter(pool, HasCode(code))[0]
    ensures CheckAddress(pool, address).Ok? ==>
      |Filter(pool, RedeemedBy(address))| > 0 &&
      CheckAddress(pool, address).value == Filter(pool, RedeemedBy(address))[0].isUsed
  {
    if First(pool, HasCode(code)).Some? {
      FirstIsHeadOfFilter(pool, HasCode(code));
    }
    if First(pool, RedeemedBy(address)).Some? {
      FirstIsHeadOfFilter(pool, RedeemedBy(address));
    }
  }

  // ---------------------------------------------------------------------------
  // generate_code, then the queries

  /** Every freshly generated code passes check_code. */
  lemma GeneratedCodeUsable(pool: Pool, codes: seq<string>, creator: Option<string>, creatorType: string, k: int)
    requires 0 <= k < |codes|
    ensures CheckCode(pool + NewRecords(codes, creator, creatorType), codes[k])
  {
    var rows := NewRecords(codes, creator, creatorType);
    assert Codes(rows)[k] == rows[k].code;
    assert (pool + rows)[|pool| + k] == rows[k];
  }

  /** get_address_code after generate_code: the new codes are appended to the
      creator's list in generation order; every other address's list is unchanged. */
  lemma {:induction false} AddressCodesAfterGenerate(pool: Pool, codes: seq<string>, creator: Option<string>,
                                                      creatorType: string, address: string)
    ensures GetAddressCode(pool + NewRecords(codes, creator, creatorType), address) ==
      GetAddressCode(pool, address) + (if creator == Some(address) then codes else [])
  {
    var rows := NewRecords(codes, creator, creatorType);
    var keep := UnusedCreatedBy(address);
    FilterAppend(pool, rows, keep);
    CodesAppend(Filter(pool, keep), Filter(rows, keep));
    if creator == Some(address) {
      FilterAll(rows, keep);
    } else {
      FilterNone(rows, keep);
    }
  }

  /** The generate_code response for freshly built rows: it raises exactly when
      at least one code was generated without a creator, and otherwise mirrors
      the codes one for one. */
  lemma GenerateReplyOfNewRecords(codes: seq<string>, creator: Option<string>, creatorType: string)
    ensures GenerateResponse(NewRecords(codes, creator, creatorType)).Err? <==> |codes| > 0 && creator.None?
    ensures var out := GenerateResponse(NewRecords(codes, creator, creatorType));
      out.Ok? ==> |out.value| == |codes| && forall j :: 0 <= j < |codes| ==>
        out.value[j] == GenerateCodeOut(creator, codes[j], creatorType, false)
  {
  }

  // ---------------------------------------------------------------------------
  // activate, then the queries

  /** activate on an unknown code changes no row and reports the error. */
  lemma ActivateUnknownCode(pool: Pool, code: string, address: string)
    requires forall j :: 0 <= j < |pool| ==> pool[j].code != code
    ensures Activated(pool, code, address) == pool
    ensures ActivateReply(pool, code) == ActivateOut(false, Some(CodeNotExist))
  {
  }

  /** Once its only row is activated, a code no longer passes check_code. */
  lemma ActivationConsumesCode(pool: Pool, code: string, address: string)
    requires CodeUnique(pool, code)
    ensures !CheckCode(Activated(pool, code, address), code)
  {
  }

  /** Activating one code leaves check_code of every other code as it was. */
  lemma ActivationKeepsOtherCodes(pool: Pool, code: string, other: string, address: string)
    requires other != code
    ensures CheckCode(Activated(pool, code, address), other) == CheckCode(pool, other)
  {
  }

  /** Without a unique constraint on `code`, activating a duplicated code
      consumes only its first row, so check_code still answers true. */
  lemma DuplicateCodeSurvivesActivation()
    ensures var row := InviteCode("X", None, "", false, None);
      CheckCode(Activated([row, row], "X", "0xB"), "X")
  {
  }

  /** activate never looks at is_used: activating an already activated code
      succeeds again and leaves the pool as if only the second address had
      activated it. */
  lemma ReactivationOverwrites(pool: Pool, code: string, first: string, second: string)
    ensures ActivateReply(Activated(pool, code, first), code) == ActivateReply(pool, code)
    ensures Activated(Activated(pool, code, first), code, second) == Activated(pool, code, second)
  {
  }

  /** get_code_detail after a successful activation shows the row used and
      redeemed by the activating address. */
  lemma DetailAfterActivation(pool: Pool, code: string, address: string)
    requires exists j :: 0 <= j < |pool| && pool[j].code == code
    ensures var detail := GetCodeDetail(Activated(pool, code, address), code);
      detail.Some? && detail.value.isUsed && detail.value.usedUser == Some(address)
  {
  }

  /** On a consistent pool check_address never answers false: it either
      raises or answers true. */
  lemma CheckAddressNeverFalse(pool: Pool, address: string)
    requires Consistent(pool)
    ensures CheckAddress(pool, address) != Ok(false)
  {
  }

  /** After a successful activation on a consistent pool, check_address of the
      activating address answers true. */
  lemma CheckAddressAfterActivation(pool: Pool, code: string, address: string)
    requires Consistent(pool)
    requires exists j :: 0 <= j < |pool| && pool[j].code == code
    ensures CheckAddress(Activated(pool, code, address), address) == Ok(true)
  {
  }

  /** After its only row is activated, a code drops out of every address's
      get_address_code list; no other code enters or leaves one. */
  lemma AddressCodesAfterActivation(pool: Pool, code: string, address: string, creator: string)
    requires CodeUnique(pool, code)
    ensures code !in GetAddressCode(Activated(pool, code, address), creator)
    ensures forall c :: c != code ==>
      (c in GetAddressCode(Activated(pool, code, address), creator) <==> c in GetAddressCode(pool, creator))
  {
  }

  // ---------------------------------------------------------------------------
  // Where the code as written raises

  /** A fresh address makes check_address raise instead of answering false. */
  lemma FreshAddressCheckRaises()
    ensures CheckAddress([], "0xA") == Err(NoRecordForRedeemer)
    ensures !IsActivated([], "0xA")
  {
  }

  /** generate_code without an address inserts the row and then raises while
      building the response. */
  lemma GenerateWithoutAddressRaises()
    ensures GenerateResponse(NewRecords(["X"], None, "")) == Err(CreatorIsNone)
    ensures GenerateResponseIntended(NewRecords(["X"], None, "")) == [GenerateCodeOut(None, "X", "", false)]
  {
  }
}
