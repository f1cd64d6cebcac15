/**
 * Registration certificates: a certificate is accepted for a query when it is in date and every
 * requested credential is one it was issued for. Credentials are compared by their canonical texts,
 * so the check is only right because those texts determine what they describe.
 */
module RegistrationCertificate {
  import opened Wrappers
  import opened Ordering
  import opened Strings
  import opened Json
  import Decimal

  const SKEW := 60

  type Payload = map<string, Value>

  /** What a credential entry asks for or authorises: its format, the paths of its claims, its meta. */
  datatype Definition =
    | Plain(value: Value)
    | Definition(format: Option<Value>, claims: Option<seq<Option<Value>>>, meta: Value)
  {
    predicate Valid() {
      Plain? ==> IsPrimitive(value)
    }
  }

  // ---- Normalising a credential ---------------------------------------------------------

  /** `value?.key` on a JSON value: only objects have members of these names. */
  function Get(v: Value, key: string): Option<Value> {
    if v.Obj? && key in v.members then Some(v.members[key]) else None
  }

  function Paths(claims: seq<Value>): (ps: seq<Option<Value>>)
    ensures |ps| == |claims|
  {
    seq(|claims|, i requires 0 <= i < |claims| => Get(claims[i], "path"))
  }

  function ArrayAt(v: Value, key: string): Option<seq<Value>> {
    match Get(v, key)
    case Some(Arr(items)) => Some(items)
    case _ => None
  }

  /** The `claims` array or, failing that, the `claim` array. */
  function RawClaims(cred: Value): Option<seq<Value>> {
    match ArrayAt(cred, "claims")
    case Some(items) => Some(items)
    case None => ArrayAt(cred, "claim")
  }

  function MetaOf(cred: Value): Value {
    match Get(cred, "meta")
    case Some(m) => if IsPrimitive(m) then Obj(map[]) else m
    case None => Obj(map[])
  }

  function Normal(cred: Value): (d: Definition)
    ensures d.Valid()
  {
    if IsPrimitive(cred) then Plain(cred)
    else
      var claims := match RawClaims(cred) case Some(items) => Some(Paths(items)) case None => None;
      Definition(Get(cred, "format"), claims, MetaOf(cred))
  }

  // ---- Its canonical text ---------------------------------------------------------------

  function OptionalText(o: Option<Value>, order: KeyOrder): string {
    match o
    case None => "undefined"
    case Some(v) => Text(v, order)
  }

  function PathsText(ps: seq<Option<Value>>, order: KeyOrder, first: bool): string {
    if ps == [] then "]"
    else
      (if first then "" else ",")
      + ("{\"path\":" + (OptionalText(ps[0], order) + ("}" + PathsText(ps[1..], order, false))))
  }

  function ClaimsText(claims: Option<seq<Option<Value>>>, order: KeyOrder): string {
    match claims
    case None => "undefined"
    case Some(ps) => "[" + PathsText(ps, order, true)
  }

  /** The text of `{ format, claims, meta }`; every locale puts claims before format before meta. */
  function DefinitionText(d: Definition, order: KeyOrder): string {
    match d
    case Plain(v) => Text(v, order)
    case Definition(format, claims, meta) =>
      "{\"claims\":" + (ClaimsText(claims, order) + (",\"format\":" + (OptionalText(format, order)
      + (",\"meta\":" + (Text(meta, order) + "}")))))
  }

  function Fingerprint(cred: Value, order: KeyOrder): string {
    DefinitionText(Normal(cred), order)
  }

  // ---- The text determines the definition -----------------------------------------------

  lemma OptionalPrefix(o: Option<Value>, p: Option<Value>, order: KeyOrder, x: string, y: string)
    requires Enumerates(order) && Decimal.NoDigitAhead(x) && Decimal.NoDigitAhead(y)
    requires OptionalText(o, order) + x == OptionalText(p, order) + y
    ensures o == p && x == y
  {
    hide Text;
    var whole := OptionalText(o, order) + x;
    assert whole[0] == OptionalText(o, order)[0] == OptionalText(p, order)[0] by {
      OptionalStart(o, order);
      OptionalStart(p, order);
    }
    OptionalStart(o, order);
    OptionalStart(p, order);
    if o.Some? {
      TextPrefix(o.value, p.value, order, x, y);
    } else {
      CancelHead("undefined", x, y);
    }
  }

  lemma OptionalStart(o: Option<Value>, order: KeyOrder)
    ensures OptionalText(o, order) != ""
    ensures OptionalText(o, order)[0] == 'u' <==> o.None?
  {
    if o.Some? {
      TextStart(o.value, order);
    }
  }

  /** The rest of a list of claims after its separator. */
  function AfterSeparator(ps: seq<Option<Value>>, order: KeyOrder, x: string): string
    requires ps != []
  {
    "{\"path\":" + (OptionalText(ps[0], order) + ("}" + (PathsText(ps[1..], order, false) + x)))
  }

  lemma PathsStart(ps: seq<Option<Value>>, order: KeyOrder, first: bool, x: string)
    requires ps != []
    ensures PathsText(ps, order, first) + x == (if first then "" else ",") + AfterSeparator(ps, order, x)
    ensures (PathsText(ps, order, first) + x)[0] != ']'
  {
    hide Text;
    var sep := if first then "" else ",";
    var path, t, rest := "{\"path\":", OptionalText(ps[0], order), PathsText(ps[1..], order, false);
    Assoc("}", rest, x);
    Assoc(t, "}" + rest, x);
    Assoc(path, t + ("}" + rest), x);
    Assoc(sep, path + (t + ("}" + rest)), x);
  }

  lemma {:induction false} PathsPrefix(ps: seq<Option<Value>>, qs: seq<Option<Value>>, order: KeyOrder, first: bool,
                                       x: string, y: string)
    requires Enumerates(order)
    requires PathsText(ps, order, first) + x == PathsText(qs, order, first) + y
    ensures ps == qs && x == y
  {
    hide Text, OptionalText;
    if ps != [] {
      PathsStart(ps, order, first, x);
    }
    if qs != [] {
      PathsStart(qs, order, first, y);
    }
    assert ("]" + x)[0] == ']' && ("]" + y)[0] == ']';
    assert ps == [] <==> qs == [];
    if ps == [] {
      CancelHead("]", x, y);
    } else {
      CancelHead(if first then "" else ",", AfterSeparator(ps, order, x), AfterSeparator(qs, order, y));
      var restP, restQ := PathsText(ps[1..], order, false) + x, PathsText(qs[1..], order, false) + y;
      CancelHead("{\"path\":", OptionalText(ps[0], order) + ("}" + restP), OptionalText(qs[0], order) + ("}" + restQ));
      OptionalPrefix(ps[0], qs[0], order, "}" + restP, "}" + restQ);
      CancelHead("}", restP, restQ);
      PathsPrefix(ps[1..], qs[1..], order, false, x, y);
      assert ps == [ps[0]] + ps[1..] && qs == [qs[0]] + qs[1..];
    }
  }

  lemma ClaimsPrefix(c: Option<seq<Option<Value>>>, d: Option<seq<Option<Value>>>, order: KeyOrder, x: string,
                     y: string)
    requires Enumerates(order)
    requires ClaimsText(c, order) + x == ClaimsText(d, order) + y
    ensures c == d && x == y
  {
    hide Text, PathsText;
    var whole := ClaimsText(c, order) + x;
    assert whole[0] == ClaimsText(c, order)[0] == ClaimsText(d, order)[0];
    if c.None? {
      CancelHead("undefined", x, y);
    } else {
      var p, q := PathsText(c.value, order, true), PathsText(d.value, order, true);
      Assoc("[", p, x);
      Assoc("[", q, y);
      CancelHead("[", p + x, q + y);
      PathsPrefix(c.value, d.value, order, true, x, y);
    }
  }

  /** What follows the claims, and what follows the format. */
  function AfterClaims(d: Definition, order: KeyOrder, x: string): string
    requires d.Definition?
  {
    ",\"format\":" + (OptionalText(d.format, order) + AfterFormat(d, order, x))
  }

  function AfterFormat(d: Definition, order: KeyOrder, x: string): string
    requires d.Definition?
  {
    ",\"meta\":" + (Text(d.meta, order) + ("}" + x))
  }

  lemma DefinitionStart(d: Definition, order: KeyOrder, x: string)
    requires d.Definition?
    ensures DefinitionText(d, order) + x == "{\"claims\":" + (ClaimsText(d.claims, order) + AfterClaims(d, order, x))
  {
    hide Text, ClaimsText, OptionalText;
    var c, f, m := ClaimsText(d.claims, order), OptionalText(d.format, order), Text(d.meta, order);
    var meta := ",\"meta\":" + (m + "}");
    var format := ",\"format\":" + (f + meta);
    Assoc(m, "}", x);
    Assoc(",\"meta\":", m + "}", x);
    Assoc(f, meta, x);
    Assoc(",\"format\":", f + meta, x);
    Assoc(c, format, x);
    Assoc("{\"claims\":", c + format, x);
  }

  lemma DefinitionPrefix(d: Definition, e: Definition, order: KeyOrder, x: string, y: string)
    requires Enumerates(order) && d.Valid() && e.Valid()
    requires Decimal.NoDigitAhead(x) && Decimal.NoDigitAhead(y)
    requires DefinitionText(d, order) + x == DefinitionText(e, order) + y
    ensures d == e && x == y
  {
    hide Text, ClaimsText, OptionalText;
    SameShape(d, e, order, x, y);
    if d.Plain? {
      TextPrefix(d.value, e.value, order, x, y);
    } else {
      DefinitionStart(d, order, x);
      DefinitionStart(e, order, y);
      var ad, ae := AfterClaims(d, order, x), AfterClaims(e, order, y);
      CancelHead("{\"claims\":", ClaimsText(d.claims, order) + ad, ClaimsText(e.claims, order) + ae);
      ClaimsPrefix(d.claims, e.claims, order, ad, ae);
      RestPrefix(d, e, order, x, y);
    }
  }

  lemma SameShape(d: Definition, e: Definition, order: KeyOrder, x: string, y: string)
    requires d.Valid() && e.Valid() && DefinitionText(d, order) + x == DefinitionText(e, order) + y
    ensures d.Plain? <==> e.Plain?
  {
    hide Text, ClaimsText, OptionalText;
    FingerprintStart(d, order);
    FingerprintStart(e, order);
    assert (DefinitionText(d, order) + x)[0] == DefinitionText(d, order)[0];
    assert (DefinitionText(e, order) + y)[0] == DefinitionText(e, order)[0];
  }

  lemma FingerprintStart(d: Definition, order: KeyOrder)
    requires d.Valid()
    ensures DefinitionText(d, order) != ""
    ensures DefinitionText(d, order)[0] == '{' <==> d.Definition?
  {
    if d.Plain? {
      TextStart(d.value, order);
    } else {
      DefinitionStart(d, order, "");
      assert DefinitionText(d, order) + "" == DefinitionText(d, order);
    }
  }

  lemma RestPrefix(d: Definition, e: Definition, order: KeyOrder, x: string, y: string)
    requires Enumerates(order) && d.Definition? && e.Definition?
    requires AfterClaims(d, order, x) == AfterClaims(e, order, y)
    ensures d.format == e.format && d.meta == e.meta && x == y
  {
    hide Text, OptionalText;
    var fd, fe := AfterFormat(d, order, x), AfterFormat(e, order, y);
    CancelHead(",\"format\":", OptionalText(d.format, order) + fd, OptionalText(e.format, order) + fe);
    OptionalPrefix(d.format, e.format, order, fd, fe);
    CancelHead(",\"meta\":", Text(d.meta, order) + ("}" + x), Text(e.meta, order) + ("}" + y));
    TextPrefix(d.meta, e.meta, order, "}" + x, "}" + y);
    CancelHead("}", x, y);
  }

  /** Two credentials have the same fingerprint exactly when they have the same format, claim paths and meta. */
  lemma FingerprintDecides(a: Value, b: Value, order: KeyOrder)
    requires Enumerates(order)
    ensures Fingerprint(a, order) == Fingerprint(b, order) <==> Normal(a) == Normal(b)
  {
    if Fingerprint(a, order) == Fingerprint(b, order) {
      assert Fingerprint(a, order) + "" == Fingerprint(b, order) + "";
      DefinitionPrefix(Normal(a), Normal(b), order, "", "");
    }
  }

  // ---- Acceptance -----------------------------------------------------------------------

  datatype Rejection =
    | NotAJwt
    | Expired
    | NotYetValid
    | NothingAuthorized
    | Overasking(unauthorized: seq<Value>)

  /** `Array.isArray(x?.credentials) ? x.credentials : []` */
  function Credentials(query: Option<Value>): seq<Value> {
    match query
    case None => []
    case Some(q) => (match ArrayAt(q, "credentials") case Some(items) => items case None => [])
  }

  function Authorized(payload: Payload): seq<Value> {
    Credentials(Some(Obj(payload)))
  }

  predicate HasExpired(payload: Payload, now: int) {
    match Get(Obj(payload), "exp")
    case Some(Num(exp)) => exp + SKEW < now
    case _ => false
  }

  predicate NotYet(payload: Payload, now: int) {
    match Get(Obj(payload), "nbf")
    case Some(Num(nbf)) => nbf - SKEW > now
    case _ => false
  }

  predicate Covers(authorized: seq<Value>, cred: Value) {
    exists a :: a in authorized && Normal(a) == Normal(cred)
  }

  predicate CoversAll(authorized: seq<Value>, requested: seq<Value>) {
    forall c :: c in requested ==> Covers(authorized, c)
  }

  /** When a certificate may be used for a query. */
  predicate Acceptable(decoded: Option<Payload>, requested: seq<Value>, now: int, skip: bool) {
    && decoded.Some?
    && !HasExpired(decoded.value, now) && !NotYet(decoded.value, now)
    && (skip || CoversAll(Authorized(decoded.value), requested))
  }

  function Uncovered(authorized: seq<Value>, requested: seq<Value>): (r: seq<Value>)
    ensures r == [] <==> CoversAll(authorized, requested)
  {
    if requested == [] then []
    else
      var init, last := requested[..|requested| - 1], requested[|requested| - 1];
      assert requested == init + [last];
      Uncovered(authorized, init) + (if Covers(authorized, last) then [] else [last])
  }

  function Fingerprints(creds: seq<Value>, order: KeyOrder): set<string> {
    set c | c in creds :: Fingerprint(c, order)
  }

  /** Looking a fingerprint up among the authorised ones is looking for an equal definition. */
  lemma LookupIsCover(authorized: seq<Value>, cred: Value, order: KeyOrder)
    requires Enumerates(order)
    ensures Fingerprint(cred, order) in Fingerprints(authorized, order) <==> Covers(authorized, cred)
  {
    forall a
      ensures Fingerprint(a, order) == Fingerprint(cred, order) <==> Normal(a) == Normal(cred)
    {
      FingerprintDecides(a, cred, order);
    }
  }

  /**
   * The check itself. It succeeds exactly for the acceptable certificates, with their payload; an
   * error says which condition failed first, and overasking names the offending credentials in order.
   */
  method ValidateRegistrationCertificate(decoded: Option<Payload>, query: Option<Value>, now: int, skip: bool,
                                         order: KeyOrder)
    returns (r: Result<Payload, Rejection>)
    requires Enumerates(order)
    ensures r.Ok? <==> Acceptable(decoded, Credentials(query), now, skip)
    ensures r.Ok? <==> decoded.Some? && IsAuthorised(decoded.value, query, now, skip)
    ensures r.Ok? ==> Some(r.value) == decoded
    ensures r == Err(NotAJwt) <==> decoded.None?
    ensures r == Err(Expired) <==> decoded.Some? && HasExpired(decoded.value, now)
    ensures r == Err(NotYetValid) <==> decoded.Some? && !HasExpired(decoded.value, now) && NotYet(decoded.value, now)
    ensures r.Err? && decoded.Some? && !HasExpired(decoded.value, now) && !NotYet(decoded.value, now) ==>
      r.error == if Authorized(decoded.value) == [] then NothingAuthorized
                 else Overasking(Uncovered(Authorized(decoded.value), Credentials(query)))
  {
    hide Fingerprint, Normal, IsAuthorised;
    if decoded.None? {
      return Err(NotAJwt);
    }
    var payload := decoded.value;
    AcceptableExactly(payload, query, now, skip);
    if HasExpired(payload, now) {
      return Err(Expired);
    }
    if NotYet(payload, now) {
      return Err(NotYetValid);
    }
    var requested := Credentials(query);
    if requested == [] || skip {
      return Ok(payload);
    }
    var authorized := Authorized(payload);
    if authorized == [] {
      assert !Covers(authorized, requested[0]);
      return Err(NothingAuthorized);
    }
    var known := set c | c in authorized :: Fingerprint(c, order);
    assert known == Fingerprints(authorized, order);
    var unauthorized: seq<Value> := [];
    for i := 0 to |requested|
      invariant unauthorized == Uncovered(authorized, requested[..i])
    {
      LookupIsCover(authorized, requested[i], order);
      if Fingerprint(requested[i], order) !in known {
        unauthorized := unauthorized + [requested[i]];
      }
      assert requested[..i + 1][..i] == requested[..i];
    }
    assert requested[..|requested|] == requested;
    if unauthorized != [] {
      return Err(Overasking(unauthorized));
    }
    return Ok(payload);
  }

  // ---- What acceptance means ------------------------------------------------------------

  /** Asking for less, or being authorised for more, never turns an acceptable certificate down. */
  lemma AcceptanceIsMonotone(p: Payload, q: Payload, now: int, skip: bool, requested: seq<Value>, fewer: seq<Value>)
    requires Acceptable(Some(p), requested, now, skip)
    requires Get(Obj(p), "exp") == Get(Obj(q), "exp") && Get(Obj(p), "nbf") == Get(Obj(q), "nbf")
    requires forall a :: a in Authorized(p) ==> a in Authorized(q)
    requires forall c :: c in fewer ==> c in requested
    ensures Acceptable(Some(q), fewer, now, skip)
  {
    forall c | c in fewer && !skip
      ensures Covers(Authorized(q), c)
    {
      assert Covers(Authorized(p), c);
    }
  }

  // What the entries say, member by member.

  predicate Has(v: Value, key: string, x: Value) {
    v.Obj? && key in v.members && v.members[key] == x
  }

  ghost predicate SameMember(a: Value, c: Value, key: string) {
    forall x :: Has(a, key, x) <==> Has(c, key, x)
  }

  /** The claims of an entry: its array `claims`, or its array `claim` when it has no such array. */
  ghost predicate HasClaims(v: Value, items: seq<Value>) {
    || Has(v, "claims", Arr(items))
    || (Has(v, "claim", Arr(items)) && forall others :: !Has(v, "claims", Arr(others)))
  }

  /** The meta of an entry: its member `meta` if that is an object or array, or else an empty object. */
  ghost predicate HasMeta(v: Value, m: Value) {
    if m.Obj? || m.Arr? then
      || Has(v, "meta", m)
      || (m == Obj(map[]) && forall x :: Has(v, "meta", x) ==> !x.Obj? && !x.Arr?)
    else false
  }

  ghost predicate SamePaths(xs: seq<Value>, ys: seq<Value>) {
    |xs| == |ys| && forall i :: 0 <= i < |xs| ==> SameMember(xs[i], ys[i], "path")
  }

  ghost predicate SameClaims(a: Value, c: Value) {
    && (forall xs :: HasClaims(a, xs) ==> exists ys :: HasClaims(c, ys) && SamePaths(xs, ys))
    && (forall ys :: HasClaims(c, ys) ==> exists xs :: HasClaims(a, xs))
  }

  ghost predicate SameMeta(a: Value, c: Value) {
    forall m :: HasMeta(a, m) <==> HasMeta(c, m)
  }

  /** Two entries say the same: equal values that are no objects, or the same format, claim paths and meta. */
  ghost predicate SameEntry(a: Value, c: Value) {
    if a.Obj? || a.Arr? then (c.Obj? || c.Arr?) && SameMember(a, c, "format") && SameClaims(a, c) && SameMeta(a, c)
    else a == c
  }

  lemma MemberExactly(a: Value, c: Value, key: string)
    ensures Get(a, key) == Get(c, key) <==> SameMember(a, c, key)
  {
    if SameMember(a, c, key) {
      match Get(a, key) {
        case Some(x) => assert Has(a, key, x) && Has(c, key, x);
        case None =>
          if Get(c, key).Some? {
            assert Has(c, key, Get(c, key).value);
          }
      }
    }
  }

  lemma PathsExactly(xs: seq<Value>, ys: seq<Value>)
    ensures Paths(xs) == Paths(ys) <==> SamePaths(xs, ys)
  {
    hide SameMember, Get;
    if |xs| == |ys| {
      forall i | 0 <= i < |xs|
        ensures Paths(xs)[i] == Paths(ys)[i] <==> SameMember(xs[i], ys[i], "path")
      {
        MemberExactly(xs[i], ys[i], "path");
      }
    }
  }

  lemma RawClaimsAre(v: Value, items: seq<Value>)
    ensures RawClaims(v) == Some(items) <==> HasClaims(v, items)
  {
  }

  lemma MetaIs(v: Value, m: Value)
    ensures MetaOf(v) == m <==> HasMeta(v, m)
  {
  }

  lemma MetaExactly(a: Value, c: Value)
    ensures MetaOf(a) == MetaOf(c) <==> SameMeta(a, c)
  {
    forall v, m
      ensures MetaOf(v) == m <==> HasMeta(v, m)
    {
      MetaIs(v, m);
    }
    hide MetaOf, HasMeta;
    if SameMeta(a, c) {
      assert HasMeta(a, MetaOf(a));
    }
  }

  lemma ClaimsExactly(a: Value, c: Value)
    ensures Normal(a).Definition? && Normal(c).Definition? ==>
      (Normal(a).claims == Normal(c).claims <==> SameClaims(a, c))
  {
    forall v, items
      ensures RawClaims(v) == Some(items) <==> HasClaims(v, items)
    {
      RawClaimsAre(v, items);
    }
    forall xs, ys
      ensures Paths(xs) == Paths(ys) <==> SamePaths(xs, ys)
    {
      PathsExactly(xs, ys);
    }
    hide RawClaims, HasClaims, Paths, SamePaths;
  }

  /** Normalised definitions are equal exactly when the entries say the same. */
  lemma NormalExactly(a: Value, c: Value)
    ensures Normal(a) == Normal(c) <==> SameEntry(a, c)
  {
    MemberExactly(a, c, "format");
    ClaimsExactly(a, c);
    MetaExactly(a, c);
    hide SameMember, SameClaims, SameMeta, Get, RawClaims, Paths, MetaOf;
  }

  /** A query or a certificate lists the credential. */
  ghost predicate Lists(v: Value, c: Value) {
    exists items :: Has(v, "credentials", Arr(items)) && c in items
  }

  lemma CredentialsAre(v: Value, c: Value)
    ensures c in Credentials(Some(v)) <==> Lists(v, c)
  {
  }

  /** A query asks for the credential. */
  ghost predicate Asks(query: Option<Value>, c: Value) {
    query.Some? && Lists(query.value, c)
  }

  /** In date, give or take a minute. */
  ghost predicate InDate(p: Payload, now: int) {
    && (forall exp :: Has(Obj(p), "exp", Num(exp)) ==> now <= exp + 60)
    && (forall nbf :: Has(Obj(p), "nbf", Num(nbf)) ==> nbf - 60 <= now)
  }

  /** The certificate may be used: it is in date, and lists an entry like each one that is asked for. */
  ghost predicate IsAuthorised(p: Payload, query: Option<Value>, now: int, skip: bool) {
    InDate(p, now) && (skip || forall c :: Asks(query, c) ==> exists a :: Lists(Obj(p), a) && SameEntry(a, c))
  }

  lemma AskedAre(query: Option<Value>, c: Value)
    ensures c in Credentials(query) <==> Asks(query, c)
  {
    if query.Some? {
      CredentialsAre(query.value, c);
    }
  }

  lemma AcceptableExactly(p: Payload, query: Option<Value>, now: int, skip: bool)
    ensures Acceptable(Some(p), Credentials(query), now, skip) <==> IsAuthorised(p, query, now, skip)
  {
    forall c
      ensures c in Credentials(query) <==> Asks(query, c)
      ensures c in Authorized(p) <==> Lists(Obj(p), c)
    {
      AskedAre(query, c);
      CredentialsAre(Obj(p), c);
    }
    forall a, c
      ensures Normal(a) == Normal(c) <==> SameEntry(a, c)
    {
      NormalExactly(a, c);
    }
    assert !HasExpired(p, now) && !NotYet(p, now) <==> InDate(p, now);
    hide InDate, Credentials, Authorized, Asks, Lists, Normal, SameEntry, HasExpired, NotYet;
  }

  /**
   * An accepted query reads nothing it was not authorised for: for a credential with claims the certificate
   * lists one with the same format and meta and as many claims, with the same paths one by one.
   */
  lemma AcceptedAsksNothingMore(p: Payload, requested: seq<Value>, now: int, c: Value, claims: seq<Value>)
    requires Acceptable(Some(p), requested, now, false) && c in requested && Has(c, "claims", Arr(claims))
    ensures exists a, items :: Lists(Obj(p), a) && SameMember(a, c, "format") && SameMeta(a, c)
                               && HasClaims(a, items) && SamePaths(items, claims)
  {
    assert Covers(Authorized(p), c);
    var a :| a in Authorized(p) && Normal(a) == Normal(c);
    CredentialsAre(Obj(p), a);
    NormalExactly(a, c);
    RawClaimsAre(a, RawClaims(a).value);
    PathsExactly(RawClaims(a).value, claims);
    assert HasClaims(a, RawClaims(a).value) && SamePaths(RawClaims(a).value, claims);
  }

  /** Credentials are matched whole: asking for only some of the authorised claims is refused as well. */
  lemma FewerClaimsAreRefused(p: Payload, a: Value, c: Value, now: int)
    requires Authorized(p) == [a] && RawClaims(a).Some? && RawClaims(c).Some?
    requires |RawClaims(c).value| < |RawClaims(a).value|
    ensures !Acceptable(Some(p), [c], now, false)
  {
    assert c in [c];
    assert Normal(a).claims.value == Paths(RawClaims(a).value);
    assert Normal(c).claims.value == Paths(RawClaims(c).value);
  }

  // ---- Certificates requested for a query -----------------------------------------------

  /** The credential entry sent to the registrar for a requested credential. */
  function Derived(cred: Value): Value {
    var meta := map["meta" := MetaOf(cred)];
    var claims := match ArrayAt(cred, "claims") case Some(items) => map["claims" := Arr(items)] case None => map[];
    var format := match Get(cred, "format") case Some(f) => map["format" := f] case None => map[];
    Obj(meta + claims + format)
  }

  /** Deriving keeps what a credential asks for, except for plain values and for `claim` used in place of `claims`. */
  lemma DerivedKeepsDefinition(cred: Value)
    ensures Normal(Derived(cred)) == Normal(cred)
      <==> !IsPrimitive(cred) && (ArrayAt(cred, "claims").Some? || ArrayAt(cred, "claim").None?)
  {
    var d := Derived(cred);
    assert Get(d, "format") == Get(cred, "format");
    assert Get(d, "meta") == Some(MetaOf(cred)) && MetaOf(d) == MetaOf(cred);
    assert ArrayAt(d, "claims") == ArrayAt(cred, "claims");
    assert ArrayAt(d, "claim") == None;
  }

  /** So a certificate issued for a query's own derived credentials authorises that query. */
  lemma IssuedForTheQuery(p: Payload, requested: seq<Value>, now: int, skip: bool)
    requires !HasExpired(p, now) && !NotYet(p, now)
    requires forall c :: c in requested ==> Derived(c) in Authorized(p)
    requires forall c :: c in requested ==> !IsPrimitive(c) && (ArrayAt(c, "claims").Some? || ArrayAt(c, "claim").None?)
    ensures Acceptable(Some(p), requested, now, skip)
  {
    forall c | c in requested
      ensures Covers(Authorized(p), c)
    {
      DerivedKeepsDefinition(c);
      assert Derived(c) in Authorized(p);
    }
  }

  // ---- Fingerprints of whole queries ----------------------------------------------------

  function LeastOf(m: multiset<string>, less: Less): (k: string)
    requires TotalOrder(less) && m != multiset{}
    ensures k in m && forall o :: o in m ==> !less(o, k)
  {
    var s := set k | k in m;
    assert exists k :: k in m;
    var ks := Ascending(s, less);
    assert forall o :: o in m ==> o in Elements(ks);
    assert ks[0] in Elements(ks);
    ks[0]
  }

  ghost predicate NonDescending(ts: seq<string>, less: Less) {
    forall i, j :: 0 <= i < j < |ts| ==> !less(ts[j], ts[i])
  }

  /** `texts.sort()`, as a function of the texts with their multiplicities. */
  function SortTexts(m: multiset<string>, less: Less): (ts: seq<string>)
    requires TotalOrder(less)
    ensures multiset(ts) == m
    ensures NonDescending(ts, less)
    decreases |m|
  {
    hide TotalOrder;
    hide NonDescending;
    if m == multiset{} then NothingToSort(less); []
    else
      var k := LeastOf(m, less);
      var rest := SortTexts(m - multiset{k}, less);
      LeastLeads(k, m, rest, less);
      [k] + rest
  }

  lemma NothingToSort(less: Less)
    ensures NonDescending([], less)
  {
  }

  lemma LeastLeads(k: string, m: multiset<string>, rest: seq<string>, less: Less)
    requires k in m && multiset(rest) == m - multiset{k} && forall o :: o in m ==> !less(o, k)
    requires NonDescending(rest, less)
    ensures multiset([k] + rest) == m && NonDescending([k] + rest, less)
  {
    assert multiset([k] + rest) == multiset{k} + multiset(rest);
    assert forall o :: o in rest ==> o in multiset(rest);
  }

  /** `texts.join("|")` */
  function Join(ts: seq<string>): string {
    if |ts| == 0 then "" else ts[0] + JoinRest(ts[1..])
  }

  function JoinRest(ts: seq<string>): string {
    if |ts| == 0 then "" else "|" + (ts[0] + JoinRest(ts[1..]))
  }

  function Definitions(creds: seq<Value>): (ds: seq<Definition>)
    ensures |ds| == |creds|
  {
    seq(|creds|, i requires 0 <= i < |creds| => Normal(creds[i]))
  }

  function Texts(ds: seq<Definition>, order: KeyOrder): (ts: seq<string>)
    ensures |ts| == |ds|
  {
    seq(|ds|, i requires 0 <= i < |ds| => DefinitionText(ds[i], order))
  }

  /** The text that computeDcqlFingerprint and computeAuthorizedCredentialsFingerprint hash, each with its own order. */
  function QueryText(creds: seq<Value>, order: KeyOrder, less: Less): string
    requires TotalOrder(less)
  {
    Join(SortTexts(multiset(Texts(Definitions(creds), order)), less))
  }

  ghost predicate IsText(t: string, order: KeyOrder) {
    exists d: Definition :: d.Valid() && t == DefinitionText(d, order)
  }

  lemma TextsPrefix(t: string, u: string, order: KeyOrder, x: string, y: string)
    requires Enumerates(order) && IsText(t, order) && IsText(u, order)
    requires Decimal.NoDigitAhead(x) && Decimal.NoDigitAhead(y) && t + x == u + y
    ensures t == u && x == y
  {
    var d: Definition :| d.Valid() && t == DefinitionText(d, order);
    var e: Definition :| e.Valid() && u == DefinitionText(e, order);
    DefinitionPrefix(d, e, order, x, y);
  }

  lemma JoinRestStart(ts: seq<string>)
    ensures Decimal.NoDigitAhead(JoinRest(ts)) && (JoinRest(ts) == "" <==> ts == [])
  {
  }

  lemma {:induction false} JoinRestInjective(ts: seq<string>, us: seq<string>, order: KeyOrder)
    requires Enumerates(order) && JoinRest(ts) == JoinRest(us)
    requires forall t :: t in ts || t in us ==> IsText(t, order)
    ensures ts == us
  {
    JoinRestStart(ts);
    JoinRestStart(us);
    if ts != [] {
      var x, y := JoinRest(ts[1..]), JoinRest(us[1..]);
      CancelHead("|", ts[0] + x, us[0] + y);
      JoinRestStart(ts[1..]);
      JoinRestStart(us[1..]);
      TextsPrefix(ts[0], us[0], order, x, y);
      JoinRestInjective(ts[1..], us[1..], order);
      assert ts == [ts[0]] + ts[1..] && us == [us[0]] + us[1..];
    }
  }

  /** Joining with a bar is unambiguous, although strings inside the texts may hold bars. */
  lemma JoinInjective(ts: seq<string>, us: seq<string>, order: KeyOrder)
    requires Enumerates(order) && Join(ts) == Join(us)
    requires forall t :: t in ts || t in us ==> IsText(t, order)
    ensures ts == us
  {
    forall t | IsText(t, order)
      ensures t != ""
    {
      var d: Definition :| d.Valid() && t == DefinitionText(d, order);
      FingerprintStart(d, order);
    }
    assert ts != [] ==> ts[0] in ts && Join(ts) != "";
    assert us != [] ==> us[0] in us && Join(us) != "";
    if ts != [] && us != [] {
      assert "|" + Join(ts) == JoinRest(ts) && "|" + Join(us) == JoinRest(us);
      JoinRestInjective(ts, us, order);
    }
  }

  /** A definition occurs as often as its text. */
  lemma {:induction false} TextCount(ds: seq<Definition>, d: Definition, order: KeyOrder)
    requires Enumerates(order) && d.Valid() && forall e :: e in ds ==> e.Valid()
    ensures multiset(Texts(ds, order))[DefinitionText(d, order)] == multiset(ds)[d]
  {
    hide DefinitionText;
    if ds != [] {
      var ts := Texts(ds, order);
      TextCount(ds[1..], d, order);
      assert ds == [ds[0]] + ds[1..] && ts == [ts[0]] + Texts(ds[1..], order);
      if DefinitionText(ds[0], order) == DefinitionText(d, order) {
        assert DefinitionText(d, order) + "" == DefinitionText(ds[0], order) + "";
        DefinitionPrefix(d, ds[0], order, "", "");
      }
    }
  }

  lemma SameTexts(ds: seq<Definition>, es: seq<Definition>, order: KeyOrder)
    requires Enumerates(order) && forall d :: d in ds || d in es ==> d.Valid()
    ensures multiset(Texts(ds, order)) == multiset(Texts(es, order)) <==> multiset(ds) == multiset(es)
  {
    hide DefinitionText;
    var ts, us := Texts(ds, order), Texts(es, order);
    forall d: Definition | d.Valid()
      ensures multiset(ts)[DefinitionText(d, order)] == multiset(ds)[d]
      ensures multiset(us)[DefinitionText(d, order)] == multiset(es)[d]
    {
      TextCount(ds, d, order);
      TextCount(es, d, order);
    }
    if multiset(ts) == multiset(us) {
      forall d
        ensures multiset(ds)[d] == multiset(es)[d]
      {
        if d in ds || d in es {
          assert d.Valid();
        }
      }
    }
    if multiset(ds) == multiset(es) {
      forall t
        ensures multiset(ts)[t] == multiset(us)[t]
      {
        if t in ts {
          var i :| 0 <= i < |ts| && ts[i] == t;
          assert ds[i] in ds;
        } else if t in us {
          var i :| 0 <= i < |us| && us[i] == t;
          assert es[i] in es;
        }
      }
    }
  }

  lemma SortedAreTexts(ds: seq<Definition>, order: KeyOrder, less: Less)
    requires TotalOrder(less) && forall d :: d in ds ==> d.Valid()
    ensures forall t :: t in SortTexts(multiset(Texts(ds, order)), less) ==> IsText(t, order)
  {
    hide SortTexts, LeastOf;
    hide TotalOrder, NonDescending, DefinitionText;
    var ts := SortTexts(multiset(Texts(ds, order)), less);
    forall t | t in ts
      ensures IsText(t, order)
    {
      assert t in multiset(ts);
      assert t in Texts(ds, order);
    }
  }

  /** Two lists of credentials have the same text to hash exactly when they hold the same definitions equally often. */
  lemma QueryTextDecides(a: seq<Value>, b: seq<Value>, order: KeyOrder, less: Less)
    requires Enumerates(order) && TotalOrder(less)
    ensures QueryText(a, order, less) == QueryText(b, order, less)
      <==> multiset(Definitions(a)) == multiset(Definitions(b))
  {
    hide TotalOrder, NonDescending, Enumerates, IsText, Join;
    var ds, es := Definitions(a), Definitions(b);
    SameTexts(ds, es, order);
    if QueryText(a, order, less) == QueryText(b, order, less) {
      SortedAreTexts(ds, order, less);
      SortedAreTexts(es, order, less);
      JoinInjective(SortTexts(multiset(Texts(ds, order)), less), SortTexts(multiset(Texts(es, order)), less), order);
    }
  }
}
