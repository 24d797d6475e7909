/** The access layer: login checks, the claims a token carries, and the resolution
    of a verified token to a role and an identity. Signing and decoding a token are
    outside the model: a token is represented by the claims map it carries. */
module Auth {
  import opened Results
  import opened Models
  import opened Ledger
  import opened Decimal

  const HrUsername: string := "hr@company.com"
  const HrPassword: string := "hr123"
  /** The fixed identity that stands for HR; there is no HR table. */
  const HrUserId: int := 999
  const HrName: string := "HR Admin"

  const RoleEmployee: string := "employee"
  const RoleHr: string := "hr"

  /** Token lifetime, in seconds, when the caller gives none (or a zero one). */
  const DefaultTokenLifetime: int := 15 * 60
  /** Token lifetime, in seconds, that both login endpoints ask for. */
  const AccessTokenLifetime: int := 30 * 60

  /** A claim value as it comes out of a decoded token. */
  datatype Claim = Text(text: string) | Number(number: int) | Null

  type Claims = map<string, Claim>

  /** The profile authenticate_hr returns. */
  datatype HrProfile = HrProfile(id: int, name: string, role: string)

  /** What verify_token extracts: the subject as an integer and the raw role claim. */
  datatype TokenData = TokenData(userId: int, role: Claim)

  /** The identity behind a request: a stored employee or the HR sentinel. */
  datatype Principal = Staff(employee: Employee) | HrAdmin(id: int, name: string)

  datatype CurrentUser = CurrentUser(user: Principal, role: string)

  /** authenticate_hr: only the one hardcoded credential pair logs in as HR. */
  function AuthenticateHr(username: string, password: string): (r: Option<HrProfile>)
    ensures r.Some? <==> username == HrUsername && password == HrPassword
    ensures r.Some? ==> r.value == HrProfile(HrUserId, HrName, RoleHr)
  {
    if username == HrUsername && password == HrPassword then Some(HrProfile(HrUserId, HrName, RoleHr))
    else None
  }

  /** authenticate_employee: the first stored employee matching both email and id. */
  function AuthenticateEmployee(employees: seq<Employee>, email: string, employeeId: int): (r: Option<Employee>)
    ensures r.Some? ==> r.value in employees && r.value.email == email && r.value.id == employeeId
    ensures r.None? <==> forall e :: e in employees ==> e.email != email || e.id != employeeId
  {
    if |employees| == 0 then None
    else if employees[0].email == email && employees[0].id == employeeId then Some(employees[0])
    else AuthenticateEmployee(employees[1..], email, employeeId)
  }

  /** create_access_token: a copy of the claims with an expiry `now + delta`, where a
      missing or zero delta means the 15-minute default (a zero timedelta is false in Python). */
  function CreateAccessToken(data: Claims, expiresDelta: Option<int>, now: int): (claims: Claims)
    ensures claims.Keys == data.Keys + {"exp"}
    ensures forall k :: k in data && k != "exp" ==> claims[k] == data[k]
    ensures expiresDelta.Some? && expiresDelta.value != 0 ==> claims["exp"] == Number(now + expiresDelta.value)
    ensures expiresDelta.None? || expiresDelta.value == 0 ==> claims["exp"] == Number(now + DefaultTokenLifetime)
  {
    var expire := if expiresDelta.Some? && expiresDelta.value != 0 then now + expiresDelta.value
                  else now + DefaultTokenLifetime;
    data["exp" := Number(expire)]
  }

  /** verify_token on the decoded claims (None when decoding fails): 401 without a
      subject, the subject converted with int() otherwise. */
  function VerifyToken(decoded: Option<Claims>): (r: Result<TokenData>)
    ensures decoded.None? ==> r == Err(Unauthorized)
    ensures decoded.Some? && ("sub" !in decoded.value || decoded.value["sub"] == Null) ==> r == Err(Unauthorized)
    ensures r.Ok? ==> decoded.Some? && "sub" in decoded.value
    ensures r.Ok? ==> r.value.role == if "role" in decoded.value then decoded.value["role"] else Null
    ensures r.Ok? ==> match decoded.value["sub"]
      case Number(n) => r.value.userId == n
      case Text(s) => ParseInt(s) == Some(r.value.userId)
      case Null => false
    ensures r.Err? ==> r.error in {Unauthorized, BadSubject}
    ensures decoded.Some? && "sub" in decoded.value ==>
      var role := if "role" in decoded.value then decoded.value["role"] else Null;
      match decoded.value["sub"]
      case Number(n) => r == Ok(TokenData(n, role))
      case Text(s) => r == if ParseInt(s).Some? then Ok(TokenData(ParseInt(s).value, role)) else Err(BadSubject)
      case Null => r == Err(Unauthorized)
  {
    match decoded
    case None => Err(Unauthorized)
    case Some(claims) =>
      var role := if "role" in claims then claims["role"] else Null;
      if "sub" !in claims then Err(Unauthorized)
      else
        match claims["sub"]
        case Null => Err(Unauthorized)
        case Number(n) => Ok(TokenData(n, role))
        case Text(s) =>
          match ParseInt(s)
          case None => Err(BadSubject)
          case Some(id) => Ok(TokenData(id, role))
  }

  /** get_current_user: an employee token resolves to the stored employee (404 if
      gone), an HR token only to id 999 (404 otherwise), any other role is 403. */
  function GetCurrentUser(token: TokenData, employees: seq<Employee>): (r: Result<CurrentUser>)
    ensures token.role == Text(RoleEmployee) ==>
      && (r.Ok? <==> HasEmployee(employees, token.userId))
      && (r.Err? ==> r.error == NotFound)
      && (r.Ok? ==> r.value.role == RoleEmployee && r.value.user.Staff?
                    && r.value.user.employee in employees && r.value.user.employee.id == token.userId)
    ensures token.role == Text(RoleHr) ==>
      && (r.Ok? <==> token.userId == HrUserId)
      && (r.Err? ==> r.error == NotFound)
      && (r.Ok? ==> r.value == CurrentUser(HrAdmin(HrUserId, HrName), RoleHr))
    ensures token.role != Text(RoleEmployee) && token.role != Text(RoleHr) ==> r == Err(Forbidden)
  {
    if token.role == Text(RoleEmployee) then
      match FindEmployee(employees, token.userId)
      case None => Err(NotFound)
      case Some(i) => Ok(CurrentUser(Staff(employees[i]), RoleEmployee))
    else if token.role == Text(RoleHr) then
      if token.userId == HrUserId then Ok(CurrentUser(HrAdmin(HrUserId, HrName), RoleHr))
      else Err(NotFound)
    else Err(Forbidden)
  }

  /** require_employee: pass the user through only when the role is employee. */
  function RequireEmployee(user: CurrentUser): (r: Result<CurrentUser>)
    ensures r.Ok? <==> user.role == RoleEmployee
    ensures r.Ok? ==> r.value == user
    ensures r.Err? ==> r.error == Forbidden
  {
    if user.role != RoleEmployee then Err(Forbidden) else Ok(user)
  }

  /** require_hr: pass the user through only when the role is hr. */
  function RequireHr(user: CurrentUser): (r: Result<CurrentUser>)
    ensures r.Ok? <==> user.role == RoleHr
    ensures r.Ok? ==> r.value == user
    ensures r.Err? ==> r.error == Forbidden
  {
    if user.role != RoleHr then Err(Forbidden) else Ok(user)
  }

  /** The claims the employee login puts in its token. */
  function EmployeeLoginClaims(e: Employee): Claims {
    map["sub" := Text(ShowInt(e.id)), "role" := Text(RoleEmployee)]
  }

  /** The claims the HR login puts in its token. */
  function HrLoginClaims(p: HrProfile): Claims {
    map["sub" := Text(ShowInt(p.id)), "role" := Text(RoleHr)]
  }

  /** Every user that get_current_user resolves passes exactly one of the two gates. */
  lemma ResolvedUserPassesOneGate(token: TokenData, employees: seq<Employee>)
    requires GetCurrentUser(token, employees).Ok?
    ensures var u := GetCurrentUser(token, employees).value;
      RequireEmployee(u).Ok? != RequireHr(u).Ok?
  {
  }

  /** An employee who logs in gets a token that, read back before it expires,
      resolves to that same stored employee, passes require_employee and fails require_hr. */
  lemma EmployeeLoginResolves(employees: seq<Employee>, email: string, employeeId: int, now: int)
    requires UniqueEmployeeIds(employees)
    requires AuthenticateEmployee(employees, email, employeeId).Some?
    ensures var e := AuthenticateEmployee(employees, email, employeeId).value;
      var token := CreateAccessToken(EmployeeLoginClaims(e), Some(AccessTokenLifetime), now);
      && token["exp"] == Number(now + AccessTokenLifetime)
      && VerifyToken(Some(token)) == Ok(TokenData(employeeId, Text(RoleEmployee)))
      && GetCurrentUser(TokenData(employeeId, Text(RoleEmployee)), employees) == Ok(CurrentUser(Staff(e), RoleEmployee))
      && RequireEmployee(CurrentUser(Staff(e), RoleEmployee)).Ok?
      && RequireHr(CurrentUser(Staff(e), RoleEmployee)) == Err(Forbidden)
  {
    var e := AuthenticateEmployee(employees, email, employeeId).value;
    ParseShowInt(e.id);
    var i := FindEmployee(employees, employeeId).value;
    var j :| 0 <= j < |employees| && employees[j] == e;
    assert i == j;
  }

  /** The HR login's token, read back before it expires, resolves to the HR sentinel
      and passes require_hr but not require_employee. */
  lemma HrLoginResolves(username: string, password: string, employees: seq<Employee>, now: int)
    requires AuthenticateHr(username, password).Some?
    ensures var p := AuthenticateHr(username, password).value;
      var token := CreateAccessToken(HrLoginClaims(p), Some(AccessTokenLifetime), now);
      && VerifyToken(Some(token)) == Ok(TokenData(HrUserId, Text(RoleHr)))
      && GetCurrentUser(TokenData(HrUserId, Text(RoleHr)), employees) == Ok(CurrentUser(HrAdmin(HrUserId, HrName), RoleHr))
      && RequireHr(CurrentUser(HrAdmin(HrUserId, HrName), RoleHr)).Ok?
      && RequireEmployee(CurrentUser(HrAdmin(HrUserId, HrName), RoleHr)) == Err(Forbidden)
  {
    ParseShowInt(HrUserId);
  }
}
