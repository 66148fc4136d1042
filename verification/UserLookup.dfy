/** The accounts of the server, and how one is found by what its holder types in. */
module UserLookup {
  import opened Wrappers

  /** A number in E.164 form. */
  type Number = s: string | s != "" && s[0] == '+' witness "+"

  /** The national part of a number. */
  type National = s: string | s != "" witness "0"

  /** What libraries and configuration make of texts. */
  datatype Numbers = Numbers(
    // the E.164 form of a number in a country, if it is valid
    e164: (string, string) -> Option<Number>,
    // the national part of an E.164 number, or all of it if it cannot be parsed
    national: Number -> National,
    // the text of a look-up without white space around it, in lower case if so configured
    trimmed: string -> string)

  datatype Account = Account(owner: string, name: string, phone: string, countryCode: string, id: string, idCard: string)

  function NumberOf(n: Numbers, a: Account): Option<Number> {
    n.e164(a.phone, a.countryCode)
  }

  /** Owner and name are the primary key of accounts. */
  ghost predicate KeysUnique(accounts: seq<Account>) {
    forall a, b | a in accounts && b in accounts && a.owner == b.owner && a.name == b.name :: a == b
  }

  predicate HasName(accounts: seq<Account>, owner: string, name: string) {
    exists a :: a in accounts && a.owner == owner && a.name == name
  }

  /** GetSeperatedPhone: the national part of an international number, and any other text as it is. */
  function Separated(n: Numbers, text: string): string {
    if text != "" && text[0] == '+' then n.national(text) else text
  }

  /** The fields that GetUserByFields looks at for a text without an at sign, in this order. */
  datatype Field = ByName | ByPhone | ById | ByIdCard

  function ValueOf(a: Account, field: Field): string {
    match field
    case ByName => a.name
    case ByPhone => a.phone
    case ById => a.id
    case ByIdCard => a.idCard
  }

  function Wanted(n: Numbers, field: Field, text: string): string {
    if field == ByPhone then Separated(n, n.trimmed(text)) else n.trimmed(text)
  }

  /** An empty organization stands for any one, as an empty field of a query does. */
  predicate OfOrganization(a: Account, organization: string) {
    organization in {"", a.owner}
  }

  predicate Matches(a: Account, organization: string, field: Field, value: string) {
    value != "" && OfOrganization(a, organization) && ValueOf(a, field) == value
  }

  predicate AnyMatches(accounts: seq<Account>, organization: string, field: Field, value: string) {
    exists a :: a in accounts && Matches(a, organization, field, value)
  }

  /** The account matches in a field, and no account does in a field before it. */
  predicate FoundBy(n: Numbers, accounts: seq<Account>, organization: string, text: string, field: Field, a: Account) {
    && a in accounts && Matches(a, organization, field, Wanted(n, field, text))
    && forall earlier | earlier in Before(field) :: !AnyMatches(accounts, organization, earlier, Wanted(n, earlier, text))
  }

  function Before(field: Field): set<Field> {
    match field
    case ByName => {}
    case ByPhone => {ByName}
    case ById => {ByName, ByPhone}
    case ByIdCard => {ByName, ByPhone, ById}
  }

  /** The account may be what GetUserByFields gives; which of several rows the database picks is open. */
  predicate MayFind(n: Numbers, accounts: seq<Account>, organization: string, text: string, a: Account) {
    exists field :: FoundBy(n, accounts, organization, text, field, a)
  }

  /** GetUserByField: some account that matches. */
  method GetUserByField(accounts: seq<Account>, organization: string, field: Field, value: string)
      returns (user: Option<Account>)
    ensures user.Some? ==> user.value in accounts && Matches(user.value, organization, field, value)
    ensures user.Some? <==> AnyMatches(accounts, organization, field, value)
    ensures value == "" ==> user == None
  {
    if value == "" {
      return None;
    }
    for i := 0 to |accounts|
      invariant forall j | 0 <= j < i :: !Matches(accounts[j], organization, field, value)
    {
      if organization in {"", accounts[i].owner} && ValueOf(accounts[i], field) == value {
        return Some(accounts[i]);
      }
    }
    user := None;
  }

  method GetUserByFields(n: Numbers, accounts: seq<Account>, organization: string, text: string)
      returns (user: Option<Account>)
    ensures user.Some? ==> MayFind(n, accounts, organization, text, user.value)
    ensures user == None ==> forall a :: !MayFind(n, accounts, organization, text, a)
    ensures n.trimmed(text) == "" ==> user == None
  {
    var field := n.trimmed(text);
    user := GetUserByField(accounts, organization, ByName, field);
    if user.Some? {
      assert FoundBy(n, accounts, organization, text, ByName, user.value);
      return;
    }
    var phone := Separated(n, field);
    user := GetUserByField(accounts, organization, ByPhone, phone);
    if user.Some? {
      assert FoundBy(n, accounts, organization, text, ByPhone, user.value);
      return;
    }
    user := GetUserByField(accounts, organization, ById, field);
    if user.Some? {
      assert FoundBy(n, accounts, organization, text, ById, user.value);
      return;
    }
    user := GetUserByField(accounts, organization, ByIdCard, field);
    if user.Some? {
      assert FoundBy(n, accounts, organization, text, ByIdCard, user.value);
    }
  }

  /** The phone that a text is looked up as: the national part of a number with a plus sign, any other text as it is. */
  predicate IsPhoneOf(n: Numbers, text: string, phone: string) {
    if text != "" && text[0] == '+' then phone == n.national(text) else phone == text
  }

  /**
    In full: an account may be found for a text that is its own trimmed form exactly if it is of the organization
    and has the text as its name; or, if nobody has that name, is stored with the phone that the text stands for; or,
    if nobody is, has the text as its identifier; or, if nobody has, as its ID card.
   */
  lemma MayFindInFull(n: Numbers, accounts: seq<Account>, organization: string, text: string, a: Account)
    requires n.trimmed(text) == text && text != ""
    ensures MayFind(n, accounts, organization, text, a) <==>
            && a in accounts && organization in {"", a.owner}
            && (|| a.name == text
                || (&& (forall b | b in accounts && organization in {"", b.owner} :: b.name != text)
                    && (|| IsPhoneOf(n, text, a.phone)
                        || (&& (forall b | b in accounts && organization in {"", b.owner} :: !IsPhoneOf(n, text, b.phone))
                            && (|| a.id == text
                                || (&& (forall b | b in accounts && organization in {"", b.owner} :: b.id != text)
                                    && a.idCard == text))))))
  {
    assert FoundBy(n, accounts, organization, text, ByName, a)
           || FoundBy(n, accounts, organization, text, ByPhone, a)
           || FoundBy(n, accounts, organization, text, ById, a)
           || FoundBy(n, accounts, organization, text, ByIdCard, a)
           || forall field :: !FoundBy(n, accounts, organization, text, field, a);
  }

  /**
    A number with a plus sign finds by phone exactly the accounts that are stored with its national part, and a
    text without one those that are stored with that text, where no account of the organization has it as its name.
   */
  lemma FoundByPhone(n: Numbers, accounts: seq<Account>, organization: string, text: string)
    requires n.trimmed(text) == text && text != ""
    requires forall b | b in accounts && organization in {"", b.owner} :: b.name != text
    ensures forall a :: FoundBy(n, accounts, organization, text, ByPhone, a)
                        <==> a in accounts && organization in {"", a.owner} && IsPhoneOf(n, text, a.phone)
    ensures (exists b :: b in accounts && organization in {"", b.owner} && IsPhoneOf(n, text, b.phone)) ==>
              forall a :: MayFind(n, accounts, organization, text, a)
                          <==> a in accounts && organization in {"", a.owner} && IsPhoneOf(n, text, a.phone)
  {
    forall a
      ensures FoundBy(n, accounts, organization, text, ByPhone, a)
              <==> a in accounts && organization in {"", a.owner} && IsPhoneOf(n, text, a.phone)
    {
    }
    if b :| b in accounts && organization in {"", b.owner} && IsPhoneOf(n, text, b.phone) {
      forall a
        ensures MayFind(n, accounts, organization, text, a)
                <==> a in accounts && organization in {"", a.owner} && IsPhoneOf(n, text, a.phone)
      {
        MayFindInFull(n, accounts, organization, text, a);
      }
    }
  }

  /** Another organization never finds it. */
  lemma ForeignNameMisses(n: Numbers, accounts: seq<Account>, organization: string, text: string, a: Account)
    requires organization != "" && organization != a.owner
    ensures !MayFind(n, accounts, organization, text, a)
  {
  }
}
