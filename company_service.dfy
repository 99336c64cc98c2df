/** CompanyService: the company store (the JPA repository, a map from id to record),
    the detailed view that joins a company with its addresses fetched one by one from
    the address service, and the membership decision for a caller's token. */
module Companies {
  import opened Common

  datatype Company = Company(
    id: Uuid,
    name: string,
    logoUrl: string,
    description: string,
    employeesNumberRange: string,
    addressIdList: seq<Uuid>,
    siretNumber: string,
    documentsUrl: seq<string>)

  /** An address as the address service returns it; this service never looks inside. */
  datatype AddressDto = AddressDto(json: string)

  datatype AddressResponse = AddressResponse(status: int, body: AddressDto)

  /** GET <address api>/<id> with the given bearer credential. A 4xx or 5xx answer is
      thrown by RestTemplate's default error handler; the code itself rejects every
      status other than 200. Both abort the loop with that status, so one check models them. */
  type AddressApi = (string, Uuid) -> AddressResponse

  datatype CompanyDetailsDto = CompanyDetailsDto(
    id: Uuid,
    name: string,
    logoUrl: string,
    description: string,
    addressList: seq<AddressDto>,
    employeesNumberRange: string,
    siretNumber: string,
    documentsUrl: seq<string>)

  /** The detailed view carries the company's own fields unchanged. */
  ghost predicate CopiesRecord(details: CompanyDetailsDto, company: Company) {
    && details.id == company.id
    && details.name == company.name
    && details.logoUrl == company.logoUrl
    && details.description == company.description
    && details.employeesNumberRange == company.employeesNumberRange
    && details.siretNumber == company.siretNumber
    && details.documentsUrl == company.documentsUrl
  }

  // ---------------------------------------------------------------------------
  // Fetching the address list
  // ---------------------------------------------------------------------------

  /** The result of fetching a list of addresses: every body, in order, or the status of
      the response that stopped the loop and the position of its id. */
  datatype FetchOutcome = Fetched(addresses: seq<AddressDto>) | Aborted(status: int, at: nat)

  /** What fetching `ids` in order, stopping at the first non-200 response, yields. */
  function FetchAll(api: AddressApi, credential: string, ids: seq<Uuid>): FetchOutcome
    decreases |ids|
  {
    if ids == [] then Fetched([])
    else
      var response := api(credential, ids[0]);
      if response.status != HTTP_OK then Aborted(response.status, 0)
      else After([response.body], FetchAll(api, credential, ids[1..]))
  }

  /** The outcome of fetching the rest of a list once `done` has been fetched. */
  function After(done: seq<AddressDto>, rest: FetchOutcome): FetchOutcome {
    match rest
    case Fetched(addresses) => Fetched(done + addresses)
    case Aborted(status, at) => Aborted(status, |done| + at)
  }

  /** Fetching in two stretches is fetching the two lists joined. */
  lemma AfterAfter(first: seq<AddressDto>, second: seq<AddressDto>, rest: FetchOutcome)
    ensures After(first, After(second, rest)) == After(first + second, rest)
  {
    if rest.Fetched? {
      assert first + (second + rest.addresses) == first + second + rest.addresses;
    }
  }

  /** The fetch succeeds exactly when every id is answered with 200. */
  lemma {:induction false} FetchedIffAllOk(api: AddressApi, credential: string, ids: seq<Uuid>)
    ensures FetchAll(api, credential, ids).Fetched?
        <==> forall j :: 0 <= j < |ids| ==> api(credential, ids[j]).status == HTTP_OK
    decreases |ids|
  {
    if ids != [] {
      FetchedIffAllOk(api, credential, ids[1..]);
      assert forall j :: 0 < j < |ids| ==> ids[j] == ids[1..][j - 1];
    }
  }

  /** On success the list has one address per id: the body fetched for the id at the
      same position, duplicates included. */
  lemma {:induction false} FetchedInOrder(api: AddressApi, credential: string, ids: seq<Uuid>)
    requires FetchAll(api, credential, ids).Fetched?
    ensures var addresses := FetchAll(api, credential, ids).addresses;
      && |addresses| == |ids|
      && forall j :: 0 <= j < |ids| ==> addresses[j] == api(credential, ids[j]).body
    decreases |ids|
  {
    if ids != [] {
      FetchedInOrder(api, credential, ids[1..]);
      assert forall j :: 0 < j < |ids| ==> ids[j] == ids[1..][j - 1];
    }
  }

  /** A failure reports the first id, in list order, not answered with 200, and that
      answer's status. */
  lemma {:induction false} AbortedAtFirstFailure(api: AddressApi, credential: string, ids: seq<Uuid>)
    requires FetchAll(api, credential, ids).Aborted?
    ensures var outcome := FetchAll(api, credential, ids);
      && outcome.at < |ids|
      && outcome.status == api(credential, ids[outcome.at]).status
      && outcome.status != HTTP_OK
      && forall j :: 0 <= j < outcome.at ==> api(credential, ids[j]).status == HTTP_OK
    decreases |ids|
  {
    if api(credential, ids[0]).status == HTTP_OK {
      AbortedAtFirstFailure(api, credential, ids[1..]);
      assert forall j :: 0 < j < |ids| ==> ids[j] == ids[1..][j - 1];
    }
  }

  /** The address loop: one request per id, in order, appending each body; the first
      response that is not 200 ends it. `requested` lists the ids a request was sent for. */
  method FetchAddressList(api: AddressApi, credential: string, ids: seq<Uuid>)
    returns (outcome: FetchOutcome, ghost requested: seq<Uuid>)
    ensures outcome == FetchAll(api, credential, ids)
    ensures outcome.Fetched? ==> requested == ids
    ensures outcome.Aborted? ==> outcome.at < |ids| && requested == ids[..outcome.at + 1]
  {
    var addressDtoList: seq<AddressDto> := [];
    requested := [];
    var i := 0;
    while i < |ids|
      invariant 0 <= i <= |ids|
      invariant |addressDtoList| == i
      invariant requested == ids[..i]
      invariant FetchAll(api, credential, ids) == After(addressDtoList, FetchAll(api, credential, ids[i..]))
    {
      var response := api(credential, ids[i]);
      requested := requested + [ids[i]];
      assert requested == ids[..i + 1];
      assert ids[i..][1..] == ids[i + 1..];
      assert FetchAll(api, credential, ids[i..]) ==
        if response.status != HTTP_OK then Aborted(response.status, 0)
        else After([response.body], FetchAll(api, credential, ids[i + 1..]));
      if response.status != HTTP_OK {
        return Aborted(response.status, i), requested;
      }
      AfterAfter(addressDtoList, [response.body], FetchAll(api, credential, ids[i + 1..]));
      addressDtoList := addressDtoList + [response.body];
      i := i + 1;
    }
    assert ids[..i] == ids;
    outcome := Fetched(addressDtoList);
  }

  // ---------------------------------------------------------------------------
  // The bearer credential: `header.split(" ")[1]`
  // ---------------------------------------------------------------------------

  /** Position of the first space of `s`, or |s| when it has none. */
  function IndexOfSpace(s: string): (k: nat)
    ensures k <= |s|
    ensures k < |s| ==> s[k] == ' '
    ensures forall j :: 0 <= j < k ==> s[j] != ' '
  {
    if s == [] || s[0] == ' ' then 0 else 1 + IndexOfSpace(s[1..])
  }

  predicate AllSpaces(s: string) {
    forall j :: 0 <= j < |s| ==> s[j] == ' '
  }

  /** `header.split(" ")[1]`. Java's split cuts at every space and drops the trailing
      empty strings, so a second element exists exactly when some character other than a
      space follows the first space. None stands for the ArrayIndexOutOfBoundsException. */
  function SecondField(header: string): (field: Option<string>)
    ensures ' ' !in header ==> field.None?
    ensures field.None? <==> IndexOfSpace(header) == |header| || AllSpaces(header[IndexOfSpace(header) + 1..])
    ensures field.Some? ==>
              var start := IndexOfSpace(header) + 1;
              var end := start + |field.value|;
              && end <= |header|
              && header[start..end] == field.value
              && ' ' !in field.value
              && (end == |header| || header[end] == ' ')
  {
    var p := IndexOfSpace(header);
    if p == |header| then None
    else
      var rest := header[p + 1..];
      if AllSpaces(rest) then None else Some(rest[..IndexOfSpace(rest)])
  }

  /** A header "<scheme> <token>" yields the token. */
  lemma SecondFieldOfBearerHeader(scheme: string, token: string)
    requires ' ' !in scheme && ' ' !in token && token != []
    ensures SecondField(scheme + " " + token) == Some(token)
  {
    var header := scheme + " " + token;
    assert forall j :: 0 <= j < |scheme| ==> header[j] == scheme[j];
    assert header[|scheme|] == ' ';
    assert IndexOfSpace(header) == |scheme|;
    assert header[|scheme| + 1..] == token;
    assert token[0] != ' ';
    assert forall j :: 0 <= j < |token| ==> token[j] != ' ';
    assert IndexOfSpace(token) == |token|;
    assert token[..|token|] == token;
  }

  // ---------------------------------------------------------------------------
  // Membership: the decision of isUserMemberOfCompany
  // ---------------------------------------------------------------------------

  /** The user service's view of a user; either field may be null. */
  datatype RecruiterDto = RecruiterDto(role: Option<string>, companyId: Option<Uuid>)

  /** The user service's answer; the body is null when there is no such user. */
  datatype UserResponse = UserResponse(status: int, body: Option<RecruiterDto>)

  /** GET <user api>/<id> with the given bearer credential. */
  type UserApi = (string, Uuid) -> UserResponse

  /** RestTemplate's default error handler throws on every 4xx and 5xx answer. */
  predicate IsErrorStatus(status: int) {
    400 <= status < 600
  }

  /** The decision once the user record is fetched: no user is NOT_FOUND, a user who is
      not a recruiter or has no company is FORBIDDEN, and otherwise the answer is whether
      the user's company is `companyId`. */
  function MembershipDecision(user: Option<RecruiterDto>, companyId: Uuid): (r: Result<bool>)
    ensures r == Err(HttpError(HTTP_NOT_FOUND)) <==> user.None?
    ensures r == Err(HttpError(HTTP_FORBIDDEN))
        <==> user.Some? && (user.value.role != Some("recruiter") || user.value.companyId.None?)
    ensures r == Ok(true) <==> user == Some(RecruiterDto(Some("recruiter"), Some(companyId)))
    ensures r == Ok(false)
        <==> user.Some? && user.value.role == Some("recruiter") && user.value.companyId.Some?
             && user.value.companyId.value != companyId
  {
    match user
    case None => Err(HttpError(HTTP_NOT_FOUND))
    case Some(recruiter) =>
      if recruiter.role.None? || recruiter.role.value != "recruiter" || recruiter.companyId.None? then
        Err(HttpError(HTTP_FORBIDDEN))
      else
        Ok(recruiter.companyId.value == companyId)
  }

  /** isUserMemberOfCompany: takes the token out of the Authorization header, reads the
      user id from its "sub" claim (`subjectOf`, None when the token or the id does not
      parse), fetches that user and decides. */
  function IsUserMemberOfCompany(companyId: Uuid, bearerToken: string, subjectOf: string -> Option<Uuid>, userApi: UserApi)
    : (r: Result<bool>)
    ensures SecondField(bearerToken).None? <==> r == Err(MalformedAuthorization)
    ensures SecondField(bearerToken).Some? && subjectOf(SecondField(bearerToken).value).None?
        <==> r == Err(InvalidToken)
    ensures SecondField(bearerToken).Some? && subjectOf(SecondField(bearerToken).value).Some? ==>
              var token := SecondField(bearerToken).value;
              var response := userApi(token, subjectOf(token).value);
              r == if IsErrorStatus(response.status) then Err(HttpError(response.status))
                   else MembershipDecision(response.body, companyId)
    ensures r == Ok(true) <==>
      && SecondField(bearerToken).Some?
      && subjectOf(SecondField(bearerToken).value).Some?
      && var token := SecondField(bearerToken).value;
         var response := userApi(token, subjectOf(token).value);
         !IsErrorStatus(response.status) && response.body == Some(RecruiterDto(Some("recruiter"), Some(companyId)))
  {
    match SecondField(bearerToken)
    case None => Err(MalformedAuthorization)
    case Some(token) =>
      match subjectOf(token)
      case None => Err(InvalidToken)
      case Some(userId) =>
        var response := userApi(token, userId);
        if IsErrorStatus(response.status) then Err(HttpError(response.status))
        else MembershipDecision(response.body, companyId)
  }

  // ---------------------------------------------------------------------------
  // The service
  // ---------------------------------------------------------------------------

  class CompanyService {
    /** The repository: every stored company, by id. */
    var companies: map<Uuid, Company>

    /** A record is stored under its own id. */
    ghost predicate Valid()
      reads this
    {
      forall id :: id in companies ==> companies[id].id == id
    }

    constructor(initial: map<Uuid, Company>)
      requires forall id :: id in initial ==> initial[id].id == id
      ensures Valid() && companies == initial
    {
      companies := initial;
    }

    /** getCompanyById: the stored record, or NotFound. */
    function GetCompanyById(id: Uuid): (r: Result<Company>)
      requires Valid()
      reads this
      ensures r.Ok? <==> id in companies
      ensures r.Ok? ==> r.value == companies[id] && r.value.id == id
      ensures r.Err? ==> r.error == NotFound
    {
      if id in companies then Ok(companies[id]) else Err(NotFound)
    }

    /** getDetailedCompanyById. The header is split only inside the loop, so an empty
        address list needs neither a well-formed header nor any request. */
    method GetDetailedCompanyById(id: Uuid, token: string, api: AddressApi)
      returns (r: Result<CompanyDetailsDto>, ghost requested: seq<Uuid>)
      requires Valid()
      ensures id !in companies ==> r == Err(NotFound) && requested == []
      ensures r.Ok? ==> id in companies && CopiesRecord(r.value, companies[id])
      ensures id in companies && companies[id].addressIdList == [] ==>
                r.Ok? && r.value.addressList == [] && requested == []
      ensures id in companies && companies[id].addressIdList != [] && SecondField(token).None? ==>
                r == Err(MalformedAuthorization) && requested == []
      ensures id in companies && companies[id].addressIdList != [] && SecondField(token).Some? ==>
                var ids := companies[id].addressIdList;
                match FetchAll(api, SecondField(token).value, ids)
                case Fetched(addresses) => r.Ok? && r.value.addressList == addresses && requested == ids
                case Aborted(status, at) => r == Err(HttpError(status)) && at < |ids| && requested == ids[..at + 1]
    {
      requested := [];
      if id !in companies {
        return Err(NotFound), requested;
      }
      var company := companies[id];
      var addressDtoList: seq<AddressDto> := [];
      if company.addressIdList != [] {
        var credential := SecondField(token);
        if credential.None? {
          return Err(MalformedAuthorization), requested;
        }
        var outcome;
        outcome, requested := FetchAddressList(api, credential.value, company.addressIdList);
        if outcome.Aborted? {
          return Err(HttpError(outcome.status)), requested;
        }
        addressDtoList := outcome.addresses;
      }
      r := Ok(CompanyDetailsDto(company.id, company.name, company.logoUrl, company.description,
                                addressDtoList, company.employeesNumberRange, company.siretNumber,
                                company.documentsUrl));
    }

    /** getCompanyAddressList: the same loop over the stored ids, with the token sent as
        it is given. */
    method GetCompanyAddressList(id: Uuid, token: string, api: AddressApi)
      returns (r: Result<seq<AddressDto>>, ghost requested: seq<Uuid>)
      requires Valid()
      ensures id !in companies ==> r == Err(NotFound) && requested == []
      ensures id in companies ==>
                var ids := companies[id].addressIdList;
                match FetchAll(api, token, ids)
                case Fetched(addresses) => r == Ok(addresses) && requested == ids
                case Aborted(status, at) => r == Err(HttpError(status)) && at < |ids| && requested == ids[..at + 1]
    {
      requested := [];
      var company := GetCompanyById(id);
      if company.Err? {
        return Err(company.error), requested;
      }
      var outcome;
      outcome, requested := FetchAddressList(api, token, company.value.addressIdList);
      if outcome.Aborted? {
        return Err(HttpError(outcome.status)), requested;
      }
      r := Ok(outcome.addresses);
    }

    /** updateCompany: copies the seven fields other than the id from `company` onto the
        stored record with the same id and saves it. */
    method UpdateCompany(company: Company) returns (r: Result<Company>)
      requires Valid()
      modifies this
      ensures Valid()
      ensures company.id !in old(companies) ==> r == Err(NotFound) && companies == old(companies)
      ensures company.id in old(companies) ==>
                r == Ok(company) && companies == old(companies)[company.id := company]
    {
      if company.id !in companies {
        return Err(NotFound);
      }
      var storedCompany := companies[company.id];
      storedCompany := storedCompany.(description := company.description);
      storedCompany := storedCompany.(employeesNumberRange := company.employeesNumberRange);
      storedCompany := storedCompany.(logoUrl := company.logoUrl);
      storedCompany := storedCompany.(name := company.name);
      storedCompany := storedCompany.(addressIdList := company.addressIdList);
      storedCompany := storedCompany.(siretNumber := company.siretNumber);
      storedCompany := storedCompany.(documentsUrl := company.documentsUrl);
      companies := companies[company.id := storedCompany];
      r := Ok(storedCompany);
    }

    /** deleteCompany: removes the record with that id, or fails with NotFound. */
    method DeleteCompany(id: Uuid) returns (err: Option<Failure>)
      requires Valid()
      modifies this
      ensures Valid()
      ensures id !in old(companies) ==> err == Some(NotFound) && companies == old(companies)
      ensures id in old(companies) ==> err == None && companies == old(companies) - {id}
    {
      if id !in companies {
        return Some(NotFound);
      }
      companies := companies - {id};
      err := None;
    }
  }
}
