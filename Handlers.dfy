/**
 * The mock API's request handlers (`mockHandler` in mockSystem/src/handler.ts)
 * over the record store of module Store.
 *
 * A handler answers with one of two envelopes: a success object
 * (`{success: true, ...}`) or an explicit error (`{__format: true, status,
 * data: {message}}`), here `Success(payload)` and `Explicit(status, message)`.
 *
 * The collaborators whose code is not part of this model appear as follows:
 *   - getTokens(claims) is the symbolic pair `GetTokens(claims)` of the two
 *     payloads it signs (access and refresh);
 *   - formatDto(kind, record, permission) is the symbolic view
 *     `BillDto(record, permission)` / `UserDto(record, permission)`;
 *   - verifyToken is a function parameter `verify`;
 *   - randomString's results, the clock (`new Date()`), and register's
 *     failing storage insert and failing getTokens (`insertFailure`,
 *     `tokenFailure`) are parameters of the handler that uses them;
 *   - checkAuthentication has already verified the access token: an
 *     authenticated handler receives its claims as `tokenData`.
 * A request field that JavaScript tests with `!x` is a `string`, and the
 * empty string stands for both an absent and an empty field (both falsy).
 */
module Handlers {
  import opened Wrappers
  import opened Store

  type Permission = int

  /** A stored user (fields as register stores them). */
  datatype UserData = UserData(name: string, password: string, permission: Permission, isDeleted: bool)
  type User = Rec<UserData>

  /** The `info` a captcha session stores, as the record JSON.stringify serialises. */
  datatype SessionInfo = SessionInfo(phone: string, captcha: string)
  /** A captcha session; captcha stores none with an `expireTime`. */
  datatype SessionData = SessionData(info: SessionInfo, expireTime: Option<int>)
  type Session = Rec<SessionData>

  /** A stored bill: the BillItem fields (`type` is `billType` here; the JavaScript number `amount` is a real) and the owner's id. */
  datatype BillData = BillData(billType: string, date: int, amount: real, title: string, userId: string)
  type Bill = Rec<BillData>
  /** The body of a createBill request, which may carry a `userId` of its own. */
  datatype BillInput = BillInput(billType: string, date: int, amount: real, title: string, userId: Option<string>)

  /** Token claims: who the token is for and with which permission. */
  datatype Claims = Claims(id: string, permission: Permission)
  /** What a token encodes: its kind and its claims. */
  datatype TokenPayload = TokenPayload(isRefresh: bool, data: Claims)
  /** The pair getTokens returns, each token named by the payload it encodes. */
  datatype TokenPair = TokenPair(accessToken: TokenPayload, refreshToken: TokenPayload)
  datatype TokenKind = AccessKind | RefreshKind
  /** verifyToken's `[ok, errorMessage, payload]`: ok with a payload, or not ok with a message. */
  datatype Verification = Verified(payload: TokenPayload) | Rejected(message: string)

  /** formatDto(kind, record, viewerPermission), left symbolic. */
  datatype Dto = BillDto(bill: Bill, viewer: Permission) | UserDto(user: User, viewer: Permission)

  datatype Payload =
    | Tokens(tokens: TokenPair)
    | Confirmed
    | CaptchaIssued(captchaId: string, captcha: string)
    | CreatedBill(createdBill: Dto)
    | UserInfo(userInfo: Dto)
    | BillPage(bills: seq<Dto>)

  /** The two envelopes a handler answers with. */
  datatype Response = Success(payload: Payload) | Explicit(status: int, message: string)

  const UserExists := "用户名已存在"
  const BadCredentials := "用户名或密码错误"
  const CaptchaEmpty := "验证码不能为空"
  const CaptchaIdEmpty := "验证码ID不能为空"
  const CaptchaMissing := "验证码不存在"
  const CaptchaExpired := "验证码已过期"
  const CaptchaWrong := "验证码错误"
  const PhoneEmpty := "手机号不能为空"
  const RefreshTokenEmpty := "refreshToken不能为空"
  const RefreshTokenInvalid := "refreshToken无效"
  const UserMissing := "用户不存在"
  const UserDeleted := "用户已删除"

  /** getTokens(claims): an access token and a refresh token, both carrying the claims. */
  function GetTokens(c: Claims): TokenPair {
    TokenPair(TokenPayload(false, c), TokenPayload(true, c))
  }

  /** The claims register and login put in the tokens they issue for a user. */
  function ClaimsOf(u: User): Claims {
    Claims(u.id, u.body.permission)
  }

  /** The store: one collection per record kind. */
  class Storage {
    const user: Collection<UserData>
    const session: Collection<SessionData>
    const bill: Collection<BillData>

    ghost predicate Valid()
      reads this, user, session, bill
    {
      user.Valid() && session.Valid() && bill.Valid()
    }

    constructor ()
      ensures Valid() && fresh(user) && fresh(session) && fresh(bill)
      ensures user.records == [] && session.records == [] && bill.records == []
    {
      user := new Collection();
      session := new Collection();
      bill := new Collection();
    }
  }

  // ---------------------------------------------------------------- register

  /** Some stored user has this name. */
  predicate NameTaken(users: seq<User>, name: string) {
    exists i :: 0 <= i < |users| && users[i].body.name == name
  }

  /**
   * POST register. `insertFailure` is the message of the error the storage
   * insert throws, if it throws; a failed insert stores nothing.
   * `tokenFailure` is the message of the error getTokens throws, if it
   * throws; the user is stored by then, and the same `catch` answers 500.
   */
  method Register(db: Storage, data: UserData, insertFailure: Option<string>, tokenFailure: Option<string>)
    returns (resp: Response)
    requires db.Valid()
    modifies db.user
    ensures db.Valid()
    ensures NameTaken(old(db.user.records), data.name) ==>
      resp == Explicit(400, UserExists) && db.user.records == old(db.user.records)
    ensures !NameTaken(old(db.user.records), data.name) && insertFailure.Some? ==>
      resp == Explicit(500, insertFailure.value) && db.user.records == old(db.user.records)
    ensures !NameTaken(old(db.user.records), data.name) && insertFailure.None? ==>
      var n := |old(db.user.records)|;
      |db.user.records| == n + 1 && db.user.records[..n] == old(db.user.records) &&
      var u := db.user.records[n];
      u.body == data && !HasId(old(db.user.records), u.id) &&
      resp == if tokenFailure.Some? then Explicit(500, tokenFailure.value) else Success(Tokens(GetTokens(ClaimsOf(u))))
  {
    var found := Find(db.user.records, (x: User) => x.body.name == data.name);
    FindNoneMatch(db.user.records, (x: User) => x.body.name == data.name);
    if found != [] {
      return Explicit(400, UserExists);
    }
    if insertFailure.Some? {
      return Explicit(500, insertFailure.value);
    }
    var u := db.user.Insert(data);
    assert db.user.records[..|old(db.user.records)|] == old(db.user.records);
    if tokenFailure.Some? {
      return Explicit(500, tokenFailure.value);
    }
    return Success(Tokens(GetTokens(ClaimsOf(u))));
  }

  // ------------------------------------------------------------------- login

  predicate CredentialsMatch(u: User, name: string, password: string) {
    u.body.name == name && u.body.password == password
  }

  /** POST login, over the user collection: tokens for the first user with these credentials. */
  function Login(users: seq<User>, name: string, password: string): (r: Response)
    ensures r.Success? <==> exists i :: 0 <= i < |users| && CredentialsMatch(users[i], name, password)
    ensures r.Success? ==>
      exists i :: 0 <= i < |users| && CredentialsMatch(users[i], name, password) &&
        (forall j :: 0 <= j < i ==> !CredentialsMatch(users[j], name, password)) &&
        r == Success(Tokens(GetTokens(ClaimsOf(users[i]))))
    ensures !r.Success? ==> r == Explicit(400, BadCredentials)
  {
    var found := Find(users, (x: User) => CredentialsMatch(x, name, password));
    FindNoneMatch(users, (x: User) => CredentialsMatch(x, name, password));
    if found == [] then Explicit(400, BadCredentials)
    else
      FindHead(users, (x: User) => CredentialsMatch(x, name, password));
      Success(Tokens(GetTokens(ClaimsOf(found[0]))))
  }

  /** A user register has just appended can log in, and gets tokens for its own id and permission. */
  lemma {:induction false} RegisteredUserCanLogin(users: seq<User>, u: User)
    requires !NameTaken(users, u.body.name)
    ensures Login(users + [u], u.body.name, u.body.password) == Success(Tokens(GetTokens(ClaimsOf(u))))
  {
    var all := users + [u];
    assert CredentialsMatch(all[|users|], u.body.name, u.body.password);
    var r := Login(all, u.body.name, u.body.password);
    var i :| 0 <= i < |all| && CredentialsMatch(all[i], u.body.name, u.body.password) &&
      (forall j :: 0 <= j < i ==> !CredentialsMatch(all[j], u.body.name, u.body.password)) &&
      r == Success(Tokens(GetTokens(ClaimsOf(all[i]))));
    if i < |users| {
      assert false;
    }
  }

  // ------------------------------------------------------------ checkCaptcha

  /** `expireTime < new Date()`; a session without an expireTime never expires. */
  predicate Expired(s: Session, now: int) {
    s.body.expireTime.Some? && s.body.expireTime.value < now
  }

  /**
   * POST checkCaptcha at time `now`. The session is removed when it has
   * expired or when the code matches, and kept on a wrong code.
   */
  method CheckCaptcha(db: Storage, captcha: string, captchaId: string, now: int) returns (resp: Response)
    requires db.Valid()
    modifies db.session
    ensures db.Valid()
    ensures captcha == "" ==> resp == Explicit(400, CaptchaEmpty)
    ensures captcha != "" && captchaId == "" ==> resp == Explicit(400, CaptchaIdEmpty)
    ensures captcha != "" && captchaId != "" && !HasId(old(db.session.records), captchaId) ==>
      resp == Explicit(400, CaptchaMissing)
    ensures captcha != "" && captchaId != "" && HasId(old(db.session.records), captchaId) ==>
      var s := FindById(old(db.session.records), captchaId).value;
      resp == if Expired(s, now) then Explicit(400, CaptchaExpired)
              else if s.body.info.captcha != captcha then Explicit(400, CaptchaWrong)
              else Success(Confirmed)
    ensures db.session.records ==
      if resp == Explicit(400, CaptchaExpired) || resp.Success? then Removed(old(db.session.records), captchaId)
      else old(db.session.records)
  {
    if captcha == "" {
      return Explicit(400, CaptchaEmpty);
    }
    if captchaId == "" {
      return Explicit(400, CaptchaIdEmpty);
    }
    var sessionInfo := FindById(db.session.records, captchaId);
    if sessionInfo.None? {
      return Explicit(400, CaptchaMissing);
    }
    var s := sessionInfo.value;
    if Expired(s, now) {
      db.session.Remove(s);
      return Explicit(400, CaptchaExpired);
    }
    if s.body.info.captcha != captcha {
      return Explicit(400, CaptchaWrong);
    }
    db.session.Remove(s);
    return Success(Confirmed);
  }

  // ----------------------------------------------------------------- captcha

  /** The session captcha stores for a phone and a code. */
  function IssuedSession(sessionId: string, phone: string, code: string): Session {
    Rec(sessionId, SessionData(SessionInfo(phone, code), None))
  }

  /**
   * GET captcha. `code` and `sessionId` are the results of randomString(6)
   * and randomString(16); the requires states that generator's lengths.
   */
  method Captcha(db: Storage, phone: string, code: string, sessionId: string) returns (resp: Response)
    requires db.Valid()
    requires |code| == 6 && |sessionId| == 16
    modifies db.session
    ensures db.Valid()
    ensures phone == "" ==> resp == Explicit(400, PhoneEmpty) && db.session.records == old(db.session.records)
    ensures phone != "" ==>
      resp == Success(CaptchaIssued(sessionId, code)) &&
      db.session.records == Upserted(old(db.session.records), IssuedSession(sessionId, phone, code)) &&
      FindById(db.session.records, resp.payload.captchaId) == Some(IssuedSession(sessionId, phone, code))
  {
    if phone == "" {
      return Explicit(400, PhoneEmpty);
    }
    var stored := db.session.Update(IssuedSession(sessionId, phone, code));
    FindByIdUnique(db.session.records, stored);
    return Success(CaptchaIssued(stored.id, code));
  }

  // ----------------------------------------------------------------- refresh

  /** GET refresh: exchanges a refresh token for a fresh pair carrying the same claims. */
  function Refresh(refreshToken: string, verify: (string, TokenKind) -> Verification): (r: Response)
    ensures refreshToken == "" ==> r == Explicit(400, RefreshTokenEmpty)
    ensures refreshToken != "" && verify(refreshToken, RefreshKind).Rejected? ==>
      r == Explicit(401, verify(refreshToken, RefreshKind).message)
    ensures refreshToken != "" && verify(refreshToken, RefreshKind).Verified? &&
            !verify(refreshToken, RefreshKind).payload.isRefresh ==>
      r == Explicit(401, RefreshTokenInvalid)
    ensures r.Success? ==>
      refreshToken != "" && verify(refreshToken, RefreshKind).Verified? &&
      verify(refreshToken, RefreshKind).payload.isRefresh &&
      r == Success(Tokens(GetTokens(verify(refreshToken, RefreshKind).payload.data)))
  {
    if refreshToken == "" then Explicit(400, RefreshTokenEmpty)
    else match verify(refreshToken, RefreshKind)
      case Rejected(message) => Explicit(401, message)
      case Verified(payload) =>
        if !payload.isRefresh then Explicit(401, RefreshTokenInvalid)
        else Success(Tokens(GetTokens(payload.data)))
  }

  /**
   * Refresh against the pair getTokens issued for some claims: presenting
   * the access token is refused with 401 even though it verifies, and
   * presenting the refresh token yields a new pair with the same claims.
   */
  lemma RefreshAcceptsOnlyRefreshTokens(token: string, verify: (string, TokenKind) -> Verification, c: Claims)
    requires token != ""
    ensures verify(token, RefreshKind) == Verified(GetTokens(c).accessToken) ==>
      Refresh(token, verify) == Explicit(401, RefreshTokenInvalid)
    ensures verify(token, RefreshKind) == Verified(GetTokens(c).refreshToken) ==>
      Refresh(token, verify) == Success(Tokens(GetTokens(c)))
  {
  }

  // --------------------------------------------------------------- createBill

  /** POST createBill (authenticated): the stored bill's owner is always the caller. */
  method CreateBill(db: Storage, data: BillInput, tokenData: Claims) returns (resp: Response)
    requires db.Valid()
    modifies db.bill
    ensures db.Valid()
    ensures db.user.records == old(db.user.records) && db.session.records == old(db.session.records)
    ensures
      var n := |old(db.bill.records)|;
      |db.bill.records| == n + 1 && db.bill.records[..n] == old(db.bill.records) &&
      var b := db.bill.records[n];
      !HasId(old(db.bill.records), b.id) &&
      b.body == BillData(data.billType, data.date, data.amount, data.title, tokenData.id) &&
      resp == Success(CreatedBill(BillDto(b, tokenData.permission)))
  {
    var b := db.bill.Insert(BillData(data.billType, data.date, data.amount, data.title, tokenData.id));
    assert db.bill.records[..|old(db.bill.records)|] == old(db.bill.records);
    return Success(CreatedBill(BillDto(b, tokenData.permission)));
  }

  // -------------------------------------------------------------- getUserInfo

  /** GET getUserInfo (authenticated), over the user collection. */
  function GetUserInfo(users: seq<User>, tokenData: Claims): (r: Response)
    ensures !HasId(users, tokenData.id) ==> r == Explicit(400, UserMissing)
    ensures HasId(users, tokenData.id) && FindById(users, tokenData.id).value.body.isDeleted ==>
      r == Explicit(400, UserDeleted)
    ensures HasId(users, tokenData.id) && !FindById(users, tokenData.id).value.body.isDeleted ==>
      r == Success(UserInfo(UserDto(FindById(users, tokenData.id).value, FindById(users, tokenData.id).value.body.permission)))
    ensures !r.Success? ==> r == Explicit(400, UserMissing) || r == Explicit(400, UserDeleted)
    ensures r.Success? ==>
      exists u :: u in users && u.id == tokenData.id && !u.body.isDeleted &&
        r == Success(UserInfo(UserDto(u, u.body.permission)))
    ensures UniqueIds(users) ==>
      (r.Success? <==> exists u :: u in users && u.id == tokenData.id && !u.body.isDeleted)
  {
    match FindById(users, tokenData.id)
    case None => Explicit(400, UserMissing)
    case Some(u) =>
      assert UniqueIds(users) ==> forall v :: v in users && v.id == tokenData.id ==> v == u by {
        forall v | UniqueIds(users) && v in users && v.id == tokenData.id ensures v == u {
          FindByIdUnique(users, v);
        }
      }
      if u.body.isDeleted then Explicit(400, UserDeleted)
      else Success(UserInfo(UserDto(u, u.body.permission)))
  }

  // ---------------------------------------------------------------- bill.list

  function Min(a: int, b: int): int {
    if a <= b then a else b
  }

  /** s.slice(start, end) for non-negative bounds: both are clamped to the length. */
  function Slice<T>(s: seq<T>, start: nat, end: nat): (r: seq<T>)
    ensures
      var lo := Min(start, |s|);
      var hi := Min(end, |s|);
      |r| == (if lo < hi then hi - lo else 0) && forall k :: 0 <= k < |r| ==> r[k] == s[lo + k]
  {
    var lo := Min(start, |s|);
    var hi := Min(end, |s|);
    if lo < hi then s[lo..hi] else []
  }

  /** bills.map(item => formatDto('bill', item, viewer)) */
  function FormatBills(page: seq<Bill>, viewer: Permission): (ds: seq<Dto>)
    ensures |ds| == |page| && forall k :: 0 <= k < |ds| ==> ds[k] == BillDto(page[k], viewer)
  {
    if page == [] then [] else [BillDto(page[0], viewer)] + FormatBills(page[1..], viewer)
  }

  /**
   * a * b on naturals, written as repeated addition so that page bounds
   * stay linear facts for the verifier; MulIsProduct ties it to `*`.
   */
  function Mul(a: nat, b: nat): nat {
    if a == 0 then 0 else Mul(a - 1, b) + b
  }

  lemma {:induction false} MulIsProduct(a: nat, b: nat)
    ensures Mul(a, b) == a * b
  {
    if a > 0 {
      MulIsProduct(a - 1, b);
      assert a * b == (a - 1) * b + b;
    }
  }

  /** The caller's bills, in store order. */
  function OwnBills(bills: seq<Bill>, id: string): seq<Bill> {
    Find(bills, (x: Bill) => x.body.userId == id)
  }

  /**
   * GET bill.list (authenticated, paginated): page `current` of the
   * caller's bills, `pageSize` to a page, each formatted for the caller.
   */
  function BillList(bills: seq<Bill>, tokenData: Claims, current: int, pageSize: int): (r: Response)
    requires current >= 1 && pageSize >= 0
    ensures r.Success? && r.payload.BillPage?
    ensures
      var own := OwnBills(bills, tokenData.id);
      var lo := Min(Mul(current - 1, pageSize), |own|);
      var hi := Min(Mul(current, pageSize), |own|);
      |r.payload.bills| == hi - lo &&
      forall k :: 0 <= k < hi - lo ==> r.payload.bills[k] == BillDto(own[lo + k], tokenData.permission)
  {
    var own := OwnBills(bills, tokenData.id);
    var start := Mul(current - 1, pageSize);
    var end := Mul(current, pageSize);
    Success(BillPage(FormatBills(Slice(own, start, end), tokenData.permission)))
  }

  /** Every bill a page lists is one of the caller's stored bills, formatted for the caller. */
  lemma BillListOnlyOwn(bills: seq<Bill>, tokenData: Claims, current: int, pageSize: int)
    requires current >= 1 && pageSize >= 0
    ensures forall d :: d in BillList(bills, tokenData, current, pageSize).payload.bills ==>
      d.BillDto? && d.bill in bills && d.bill.body.userId == tokenData.id && d.viewer == tokenData.permission
  {
    var page := BillList(bills, tokenData, current, pageSize).payload.bills;
    forall d | d in page
      ensures d.BillDto? && d.bill in bills && d.bill.body.userId == tokenData.id && d.viewer == tokenData.permission
    {
      var k :| 0 <= k < |page| && page[k] == d;
      PageItemIsOwn(bills, tokenData, current, pageSize, k);
    }
  }

  lemma PageItemIsOwn(bills: seq<Bill>, tokenData: Claims, current: int, pageSize: int, k: int)
    requires current >= 1 && pageSize >= 0
    requires 0 <= k < |BillList(bills, tokenData, current, pageSize).payload.bills|
    ensures
      var d := BillList(bills, tokenData, current, pageSize).payload.bills[k];
      d.BillDto? && d.bill in OwnBills(bills, tokenData.id) && d.viewer == tokenData.permission
  {
    var own := OwnBills(bills, tokenData.id);
    var lo := Min(Mul(current - 1, pageSize), |own|);
    assert lo + k < |own|;
  }

  /**
   * Pages tile the caller's bills: with pageSize > 0, the bill at position
   * idx of the caller's bills is item idx % pageSize of page idx / pageSize + 1.
   */
  lemma BillOnItsPage(bills: seq<Bill>, tokenData: Claims, pageSize: int, idx: int)
    requires pageSize > 0 && 0 <= idx < |OwnBills(bills, tokenData.id)|
    ensures
      var page := BillList(bills, tokenData, idx / pageSize + 1, pageSize).payload.bills;
      idx % pageSize < |page| &&
      page[idx % pageSize] == BillDto(OwnBills(bills, tokenData.id)[idx], tokenData.permission)
  {
    var q, m := idx / pageSize, idx % pageSize;
    MulIsProduct(q, pageSize);
    assert Mul(q, pageSize) + m == idx;
  }

  /** 25 bills of the caller and pageSize 10: page 1 is the first ten, page 3 holds five, page 4 none. */
  lemma PaginationExample(bills: seq<Bill>, tokenData: Claims)
    requires |OwnBills(bills, tokenData.id)| == 25
    ensures
      var own := OwnBills(bills, tokenData.id);
      var page1 := BillList(bills, tokenData, 1, 10).payload.bills;
      |page1| == 10 && (forall k :: 0 <= k < 10 ==> page1[k].bill == own[k])
    ensures |BillList(bills, tokenData, 3, 10).payload.bills| == 5
    ensures BillList(bills, tokenData, 4, 10).payload.bills == []
  {
  }

  // ------------------------------------------------------------- scenarios

  /** Registering a name twice: the second call is refused and one user has that name. */
  method RegisterTwice(db: Storage, first: UserData, second: UserData) returns (r1: Response, r2: Response)
    requires db.Valid() && !NameTaken(db.user.records, first.name) && second.name == first.name
    modifies db.user
    ensures db.Valid()
    ensures r1.Success? && r2 == Explicit(400, UserExists)
    ensures forall i, j ::
      (0 <= i < |db.user.records| && 0 <= j < |db.user.records| &&
       db.user.records[i].body.name == first.name && db.user.records[j].body.name == first.name) ==> i == j
    ensures NameTaken(db.user.records, first.name)
  {
    ghost var before := db.user.records;
    r1 := Register(db, first, None, None);
    assert NameTaken(db.user.records, first.name) by {
      assert db.user.records[|before|].body.name == first.name;
    }
    r2 := Register(db, second, None, None);
    forall i | 0 <= i < |db.user.records| && db.user.records[i].body.name == first.name
      ensures i == |before|
    {
      if i < |before| {
        assert false;
      }
    }
  }

  /**
   * A captcha is used once: checking the issued code succeeds, and a second
   * check with the same id finds no session.
   */
  method CaptchaIsSingleUse(db: Storage, phone: string, code: string, sessionId: string, now: int)
    returns (issued: Response, first: Response, second: Response)
    requires db.Valid() && |code| == 6 && |sessionId| == 16 && phone != ""
    modifies db.session
    ensures db.Valid()
    ensures issued == Success(CaptchaIssued(sessionId, code))
    ensures first == Success(Confirmed)
    ensures second == Explicit(400, CaptchaMissing)
    ensures !HasId(db.session.records, sessionId)
  {
    issued := Captcha(db, phone, code, sessionId);
    first := CheckCaptcha(db, code, issued.payload.captchaId, now);
    second := CheckCaptcha(db, code, issued.payload.captchaId, now);
  }
}
