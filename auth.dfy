/** The authentication middleware of src/middlewares/AuthMiddleware.js: `protect`
    reads a bearer token, lets the (external) JWT verifier decode it, looks the
    account up in the store its role names and attaches it to the request; the
    three role guards then admit only their own account type. */
module Auth {
  import opened Wrappers
  import opened Text
  import Validation

  const BearerPrefix: string := "Bearer "

  /** `authHeader?.startsWith("Bearer ") ? authHeader.split(" ")[1] : null`. The
      split always has a second part here, since the header holds a space. */
  function GetToken(header: Option<string>): (t: Option<string>)
    ensures t.Some? <==> header.Some? && StartsWith(header.value, BearerPrefix)
  {
    if header.Some? && StartsWith(header.value, BearerPrefix) then
      var rest := header.value[|BearerPrefix|..];
      assert header.value == "Bearer" + [' '] + rest;
      SplitPrefixThenSep("Bearer", ' ', rest);
      Some(Split(header.value, ' ')[1])
    else
      None
  }

  /** The first part of a split is the longest separator-free prefix. */
  lemma {:induction false} FirstPart(s: string, sep: char)
    ensures var p := Split(s, sep)[0];
      && |p| <= |s| && s[..|p|] == p && !Contains(p, sep)
      && (|p| == |s| || s[|p|] == sep)
    decreases |s|
  {
    SplitPartsHaveNoSeparator(s, sep);
    if s != [] && s[0] != sep {
      FirstPart(s[1..], sep);
    }
  }

  /** The token is what follows "Bearer " up to the next space (or the end): a
      double space or a bare "Bearer " gives the empty token. */
  lemma TokenIsFirstWord(header: string)
    requires StartsWith(header, BearerPrefix)
    ensures var rest := header[|BearerPrefix|..]; var t := GetToken(Some(header)).value;
      && |t| <= |rest| && rest[..|t|] == t && !Contains(t, ' ')
      && (|t| == |rest| || rest[|t|] == ' ')
  {
    var rest := header[|BearerPrefix|..];
    assert header == "Bearer" + [' '] + rest;
    SplitPrefixThenSep("Bearer", ' ', rest);
    FirstPart(rest, ' ');
  }

  /** Conversely, a space-free token sent as "Bearer <token>", with or without
      more space-separated text after it, is read back exactly. */
  lemma TokenRoundTrip(token: string, more: Option<string>)
    requires !Contains(token, ' ')
    ensures var header := BearerPrefix + token + (if more.Some? then [' '] + more.value else "");
      GetToken(Some(header)) == Some(token)
  {
    var tail := if more.Some? then [' '] + more.value else "";
    var header := BearerPrefix + token + tail;
    assert StartsWith(header, BearerPrefix) by { assert header[..|BearerPrefix|] == BearerPrefix; }
    var rest := header[|BearerPrefix|..];
    assert rest == token + tail;
    SplitPrefixThenSep("Bearer", ' ', rest);
    assert header == "Bearer" + [' '] + rest;
    if more.Some? {
      SplitPrefixThenSep(token, ' ', more.value);
      assert rest == token + [' '] + more.value;
    } else {
      SplitWithout(token, ' ');
      assert rest == token;
    }
  }

  // ---------------------------------------------------------------------------
  // protect
  // ---------------------------------------------------------------------------

  /** The part of a User, Seller or Admin document the middleware reads. */
  datatype Account = Account(id: string, role: string, isActive: bool)

  /** What `jwt.verify` decodes from a valid token. */
  datatype Claims = Claims(id: string, role: string)

  /** The three account collections, keyed by id. */
  datatype Stores = Stores(users: map<string, Account>, sellers: map<string, Account>, admins: map<string, Account>)

  predicate KnownRole(role: string) { role == "user" || role == "seller" || role == "admin" }

  /** The collection `findById` is sent to for a known role. */
  function StoreFor(stores: Stores, role: string): map<string, Account>
    requires KnownRole(role)
  {
    if role == "user" then stores.users else if role == "seller" then stores.sellers else stores.admins
  }

  /** Each document carries its collection's role: `role` has the single enum
      value `user`, `seller` or `admin` in User.js, Seller.js and Admin.js. */
  predicate StoresWellFormed(stores: Stores)
  {
    && (forall id :: id in stores.users ==> stores.users[id].role == "user")
    && (forall id :: id in stores.sellers ==> stores.sellers[id].role == "seller")
    && (forall id :: id in stores.admins ==> stores.admins[id].role == "admin")
  }

  const NoTokenMessage: string := "Authorization failed; Please log in to Access."
  const InvalidAccountTypeMessage: string := "Invalid account type"
  const InactiveMessage: string := "Account unavailable or inactive"
  const SessionExpiredMessage: string := "Session expired. Please log in again"

  /** `protect`'s outcome: `next()` with `req.account` set, or a 401 message. */
  datatype AuthReply = Authenticated(account: Account) | Unauthorized(message: string)

  /** `protect` for the Authorization header `header`. `verify` stands for
      `jwt.verify` with the server's secret: `None` when it throws (bad signature,
      expired token). `findById` throws a cast error on an id that is not an
      ObjectId; both throws land in the `catch` and give "Session expired". */
  function Protect(header: Option<string>, verify: string -> Option<Claims>, stores: Stores): (r: AuthReply)
    ensures r == Unauthorized(NoTokenMessage) <==> GetToken(header).None? || GetToken(header).value == ""
    ensures r == Unauthorized(InvalidAccountTypeMessage) <==>
      GetToken(header).Some? && GetToken(header).value != "" &&
      verify(GetToken(header).value).Some? && !KnownRole(verify(GetToken(header).value).value.role)
    ensures r.Authenticated? <==>
      && GetToken(header).Some? && GetToken(header).value != ""
      && var c := verify(GetToken(header).value);
         c.Some? && KnownRole(c.value.role) && Validation.HexObjectId(c.value.id)
         && c.value.id in StoreFor(stores, c.value.role) && StoreFor(stores, c.value.role)[c.value.id].isActive
    ensures r.Authenticated? ==>
      var c := verify(GetToken(header).value).value; r.account == StoreFor(stores, c.role)[c.id]
    ensures r == Unauthorized(SessionExpiredMessage) <==>
      && GetToken(header).Some? && GetToken(header).value != ""
      && var c := verify(GetToken(header).value);
         c.None? || (KnownRole(c.value.role) && !Validation.HexObjectId(c.value.id))
    ensures r == Unauthorized(InactiveMessage) <==>
      && GetToken(header).Some? && GetToken(header).value != ""
      && var c := verify(GetToken(header).value);
         c.Some? && KnownRole(c.value.role) && Validation.HexObjectId(c.value.id)
         && !(c.value.id in StoreFor(stores, c.value.role) && StoreFor(stores, c.value.role)[c.value.id].isActive)
  {
    match GetToken(header)
    case None => Unauthorized(NoTokenMessage)
    case Some(token) =>
      if token == "" then Unauthorized(NoTokenMessage)
      else match verify(token)
        case None => Unauthorized(SessionExpiredMessage)
        case Some(c) =>
          if !KnownRole(c.role) then Unauthorized(InvalidAccountTypeMessage)
          else if !Validation.HexObjectId(c.id) then Unauthorized(SessionExpiredMessage)
          else
            var store := StoreFor(stores, c.role);
            if c.id in store && store[c.id].isActive then Authenticated(store[c.id])
            else Unauthorized(InactiveMessage)
  }

  // ---------------------------------------------------------------------------
  // adminProtect, sellerProtect, userProtect
  // ---------------------------------------------------------------------------

  /** A guard's outcome: `next()` or a 403 message. */
  datatype GuardReply = Pass | Forbidden(message: string)

  const AdminOnlyMessage: string := "Admin access only"
  const SellerRequiredMessage: string := "Seller account required"
  const UserRequiredMessage: string := "User account required"

  function AdminProtect(account: Account): (r: GuardReply)
    ensures r == Pass <==> account.role == "admin"
    ensures r != Pass ==> r == Forbidden(AdminOnlyMessage)
  {
    if account.role != "admin" then Forbidden(AdminOnlyMessage) else Pass
  }

  function SellerProtect(account: Account): (r: GuardReply)
    ensures r == Pass <==> account.role == "seller"
    ensures r != Pass ==> r == Forbidden(SellerRequiredMessage)
  {
    if account.role != "seller" then Forbidden(SellerRequiredMessage) else Pass
  }

  function UserProtect(account: Account): (r: GuardReply)
    ensures r == Pass <==> account.role == "user"
    ensures r != Pass ==> r == Forbidden(UserRequiredMessage)
  {
    if account.role != "user" then Forbidden(UserRequiredMessage) else Pass
  }

  /** With well-formed stores, an account `protect` admits under the role of its
      token passes exactly that role's guard and is refused by the other two. */
  lemma ProtectThenGuard(header: Option<string>, verify: string -> Option<Claims>, stores: Stores)
    requires StoresWellFormed(stores)
    requires Protect(header, verify, stores).Authenticated?
    ensures var a := Protect(header, verify, stores).account;
      var role := verify(GetToken(header).value).value.role;
      && a.role == role
      && (UserProtect(a) == Pass <==> role == "user")
      && (SellerProtect(a) == Pass <==> role == "seller")
      && (AdminProtect(a) == Pass <==> role == "admin")
  {
  }

  /** An id is looked up only in its own role's collection: the same id with a
      different role reaches a different store. A seller token never returns a
      user document, whatever the user collection holds. */
  lemma ProtectIgnoresOtherStores(header: Option<string>, verify: string -> Option<Claims>, stores: Stores, other: Stores)
    requires GetToken(header).Some? && verify(GetToken(header).value).Some?
    requires var role := verify(GetToken(header).value).value.role;
      KnownRole(role) ==> StoreFor(stores, role) == StoreFor(other, role)
    ensures Protect(header, verify, stores) == Protect(header, verify, other)
  {
  }
}
