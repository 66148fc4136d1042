/**
  For which account a redeemed device code gets its token.  The approver leaves only a name in the shared map;
  the token is made for the account that the polling client's organization has by that name.
 */
module DeviceTokens {
  import opened DeviceFlow
  import opened DeviceRuns
  import opened UserLookup

  /** The token of a redemption, asked for by a client of the organization, may be made for the account. */
  ghost predicate TokenFor(n: Numbers, users: seq<Account>, organization: string, r: Redemption, a: Account) {
    MayFind(n, users, organization, r.name, a)
  }

  /** The account approved the code of the redemption. */
  ghost predicate Approved(w: World, r: Redemption, approver: Account) {
    exists a :: a in w.approvals && a.deviceCode == r.deviceCode && a.name == approver.name
  }

  lemma RedeemsApproversName(accounts: set<string>, run: seq<World>, i: nat, r: Redemption, approver: Account)
    requires IsRun(accounts, run) && i < |run| && r in run[i].redemptions && Approved(run[i], r, approver)
    ensures r.name == approver.name
  {
    RedemptionsAgree(accounts, run, i, r, r);
  }

  /**
    In every run the token of a redeemed code is sure to be for the approver's account if and only if the client
    that polls is of the approver's organization, or of none where nobody else has the approver's name.
    The name is one that is looked up as it is: not empty, and neither trimmed nor put into lower case.
   */
  lemma TokenIsApproversIff(accounts: set<string>, run: seq<World>, i: nat, r: Redemption,
                            n: Numbers, users: seq<Account>, organization: string, approver: Account)
    requires IsRun(accounts, run) && i < |run| && r in run[i].redemptions && Approved(run[i], r, approver)
    requires KeysUnique(users) && approver in users && approver.name != "" && n.trimmed(approver.name) == approver.name
    ensures (forall a :: TokenFor(n, users, organization, r, a) <==> a == approver)
            <==> if organization == "" then forall a | a in users && a.name == approver.name :: a == approver
                 else organization == approver.owner
  {
    RedeemsApproversName(accounts, run, i, r, approver);
    if organization in {"", approver.owner} {
      NameFinds(n, users, organization, approver);
      assert forall a :: TokenFor(n, users, organization, r, a)
                         <==> a in users && OfOrganization(a, organization) && a.name == approver.name;
    } else {
      ForeignNameMisses(n, users, organization, r.name, approver);
      assert !TokenFor(n, users, organization, r, approver);
    }
  }

  /** The name of an account finds all accounts of that name in the organization, and no others. */
  lemma NameFinds(n: Numbers, users: seq<Account>, organization: string, owner: Account)
    requires owner in users && OfOrganization(owner, organization) && owner.name != "" && n.trimmed(owner.name) == owner.name
    ensures forall a :: MayFind(n, users, organization, owner.name, a)
                        <==> a in users && OfOrganization(a, organization) && a.name == owner.name
  {
    assert Matches(owner, organization, ByName, owner.name);
    forall a
      ensures MayFind(n, users, organization, owner.name, a)
              <==> a in users && OfOrganization(a, organization) && a.name == owner.name
    {
      if field :| FoundBy(n, users, organization, owner.name, field, a) {
        assert field == ByName || ByName in Before(field);
      }
      if a in users && OfOrganization(a, organization) && a.name == owner.name {
        assert FoundBy(n, users, organization, owner.name, ByName, a);
      }
    }
  }

  /** A client of another organization gets the token of its own account of that name. */
  lemma NamesakeGetsToken(accounts: set<string>, run: seq<World>, i: nat, r: Redemption,
                          n: Numbers, users: seq<Account>, approver: Account, namesake: Account)
    requires IsRun(accounts, run) && i < |run| && r in run[i].redemptions && Approved(run[i], r, approver)
    requires KeysUnique(users) && namesake in users && namesake.name == approver.name
    requires approver.name != "" && n.trimmed(approver.name) == approver.name
    requires namesake.owner != "" && namesake.owner != approver.owner
    ensures forall a :: TokenFor(n, users, namesake.owner, r, a) <==> a == namesake
  {
    RedeemsApproversName(accounts, run, i, r, approver);
    NameFinds(n, users, namesake.owner, namesake);
  }
}
