/**
 The invite routes over the two tables they change in place: UserAddress (the
 address registry) and InviteCodePool. The read-only routes (check_code,
 check_address, get_address_code, get_code_detail) are the functions of
 InviteHandlers applied to `pool`; the routes that write are methods here.
 */
module InviteRoutes {
  import opened InvitePool
  import opened InviteHandlers
  import opened InviteProperties

  /** The registry after `UserAddress.get_or_create(address=a)`: the address
      is present exactly once and nothing else changes. */
  function WithAddress(addresses: seq<string>, a: string): (r: seq<string>)
    ensures a in r
    ensures forall x :: x in r <==> x in addresses || x == a
    ensures addresses <= r && |r| <= |addresses| + 1
    ensures a in addresses ==> r == addresses
    ensures Distinct(addresses) ==> Distinct(r)
  {
    if a in addresses then addresses else addresses + [a]
  }

  class InviteStore {
    /** UserAddress, in insertion order. */
    var addresses: seq<string>
    /** InviteCodePool, in storage order. */
    var pool: Pool

    ghost predicate Valid()
      reads this
    {
      Distinct(addresses) && Consistent(pool) && Referenced(pool, addresses)
    }

    /** Empty tables. */
    constructor ()
      ensures Valid()
      ensures addresses == [] && pool == []
    {
      addresses := [];
      pool := [];
    }

    /** `UserAddress.get_or_create(address=a)`; `created` is the second
        element of the pair the ORM returns. */
    method GetOrCreateAddress(a: string) returns (created: bool)
      modifies this
      ensures addresses == WithAddress(old(addresses), a)
      ensures created <==> a !in old(addresses)
      ensures pool == old(pool)
      ensures old(Valid()) ==> Valid()
    {
      created := a !in addresses;
      if created {
        addresses := addresses + [a];
      }
    }

    /** POST /activate. The address is registered before the code is looked
        up, so it stays registered when the code does not exist. */
    method Activate(code: string, address: string) returns (out: ActivateOut)
      modifies this
      ensures addresses == WithAddress(old(addresses), address)
      ensures pool == Activated(old(pool), code, address)
      ensures out == ActivateReply(old(pool), code)
      ensures old(Valid()) ==> Valid()
    {
      var _ := GetOrCreateAddress(address);
      var found := First(pool, HasCode(code));
      if found.None? {
        out := ActivateOut(false, Some(CodeNotExist));
        return;
      }
      var i := found.value;
      pool := pool[i := Redeem(pool[i], address)];
      out := ActivateOut(true, None);
    }

    /** POST /generate, given the codes `generate_invite_code` produced. The
        rows are inserted before the response is built, so they stay in the
        pool when building the response raises. */
    method GenerateCode(codes: seq<string>, address: Option<string>, creatorType: string)
      returns (out: Result<seq<GenerateCodeOut>>)
      modifies this
      ensures addresses == if AddressGiven(address) then WithAddress(old(addresses), address.value)
                           else old(addresses)
      ensures pool == old(pool) + NewRecords(codes, CreatorOf(address), creatorType)
      ensures out == GenerateResponse(NewRecords(codes, CreatorOf(address), creatorType))
      ensures old(Valid()) ==> Valid()
    {
      var creator: Option<string> := None;
      if AddressGiven(address) {
        var _ := GetOrCreateAddress(address.value);
        creator := address;
      }
      var created := NewRecords(codes, creator, creatorType);
      pool := pool + created;
      out := GenerateResponse(created);
    }
  }

  /** A client of InviteStore: generating a fresh code, redeeming it, and what
      the read-only routes answer at each step, derived from the method
      contracts and the handler lemmas alone. */
  method RedemptionFlow(store: InviteStore, code: string, creator: string, redeemer: string)
    requires store.Valid()
    requires creator != ""
    requires forall j :: 0 <= j < |store.pool| ==> store.pool[j].code != code
    modifies store
    ensures store.Valid()
  {
    assert CreatorOf(Some(creator)) == Some(creator);
    var generated := store.GenerateCode([code], Some(creator), "invite");
    GenerateReplyOfNewRecords([code], Some(creator), "invite");
    assert generated.Ok? && |generated.value| == 1;
    assert generated.value[0] == GenerateCodeOut(Some(creator), [code][0], "invite", false);
    assert generated.value == [GenerateCodeOut(Some(creator), code, "invite", false)];
    GeneratedCodeUsable(old(store.pool), [code], Some(creator), "invite", 0);
    assert CheckCode(store.pool, code);
    AddressCodesAfterGenerate(old(store.pool), [code], Some(creator), "invite", creator);
    assert code in GetAddressCode(store.pool, creator);

    ghost var generatedPool := store.pool;
    assert CodeUnique(generatedPool, code);
    var reply := store.Activate(code, redeemer);
    assert reply == ActivateOut(true, None);
    ActivationConsumesCode(generatedPool, code, redeemer);
    assert !CheckCode(store.pool, code);
    CheckAddressAfterActivation(generatedPool, code, redeemer);
    assert CheckAddress(store.pool, redeemer) == Ok(true);
    AddressCodesAfterActivation(generatedPool, code, redeemer, creator);
    assert code !in GetAddressCode(store.pool, creator);
    DetailAfterActivation(generatedPool, code, redeemer);
    assert GetCodeDetail(store.pool, code).value.usedUser == Some(redeemer);
  }
}
