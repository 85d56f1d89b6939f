/**
 * The authorisation middleware (pkg/middlewares/middleware.go): reading the
 * claims of a bearer token, the role and group membership test, and the
 * allow/deny decision of AuthRequired, including its branches that write a
 * 401 and then carry on.
 */
module Middleware {
  import opened Wrappers
  import opened GoStd
  import opened Http

  // ------------------------------------------------------- membership test

  /**
   * parseRolesGroups: an empty requirement accepts whatever the token
   * carries; otherwise some required name must equal some token name.
   */
  predicate ParseRolesGroups(values: seq<string>, metas: seq<string>)
    ensures ParseRolesGroups(values, metas) <==>
      |values| == 0 || exists i :: 0 <= i < |values| && values[i] in metas
  {
    |values| == 0 || AnyIn(values, metas)
  }

  /** The nested loop with early return: some element of `values` occurs in `metas`. */
  predicate AnyIn(values: seq<string>, metas: seq<string>)
    ensures AnyIn(values, metas) <==> exists i :: 0 <= i < |values| && values[i] in metas
  {
    if values == [] then false
    else values[0] in metas || AnyIn(values[1..], metas)
  }

  /** A non-empty requirement is never met by a token that carries no names. */
  lemma RequirementNeedsNames(values: seq<string>)
    requires |values| > 0
    ensures !ParseRolesGroups(values, [])
  {
  }

  /** Adding names to the token's list never turns acceptance into refusal. */
  lemma {:induction false} ParseRolesGroupsMonotone(values: seq<string>, metas: seq<string>, more: seq<string>)
    requires ParseRolesGroups(values, metas)
    ensures ParseRolesGroups(values, metas + more) && ParseRolesGroups(values, more + metas)
  {
    if |values| > 0 {
      var i :| 0 <= i < |values| && values[i] in metas;
      assert values[i] in metas + more;
      assert values[i] in more + metas;
    }
  }

  // ---------------------------------------------------------------- claims

  /**
   * A decoded JSON claim value. Numbers are whole numbers here: the float64
   * representation JSON numbers get is not modelled.
   */
  datatype Claim = Str(s: string) | Num(n: int) | Bool(b: bool) | Arr(items: seq<Claim>) | Null

  type Claims = map<string, Claim>

  /** What jwt.Parse does with the token text: an error, or the claims of a valid token. */
  datatype Parse = ParseError(msg: string) | Verified(claims: Claims)

  datatype TokenMetadata = TokenMetadata(
    userId: nat, fullName: string, userName: string,
    roles: seq<string>, groups: seq<string>, expires: int)

  /** How ExtractTokenMetadata ends: metadata, a returned error, or a panic. */
  datatype Extracted = Extracted(meta: TokenMetadata) | ExtractError(msg: string) | ExtractPanic

  /** The string elements of a claim array, in order; every other element is dropped. */
  function StringItems(items: seq<Claim>): (r: seq<string>)
    ensures |r| <= |items|
  {
    if items == [] then []
    else (if items[0].Str? then [items[0].s] else []) + StringItems(items[1..])
  }

  /** Filtering a concatenation filters each part. */
  lemma {:induction false} StringItemsAppend(a: seq<Claim>, b: seq<Claim>)
    ensures StringItems(a + b) == StringItems(a) + StringItems(b)
  {
    if a == [] {
      assert a + b == b;
    } else {
      assert (a + b)[0] == a[0] && (a + b)[1..] == a[1..] + b;
      StringItemsAppend(a[1..], b);
    }
  }

  /** A name is kept exactly when it occurs in the array as a string element. */
  lemma {:induction false} StringItemsMembers(items: seq<Claim>, name: string)
    ensures name in StringItems(items) <==> Str(name) in items
  {
    if items != [] {
      StringItemsMembers(items[1..], name);
      assert items == [items[0]] + items[1..];
    }
  }

  /** The names a claim carries: the string elements when it is an array, none otherwise. */
  function ClaimNames(claims: Claims, key: string): seq<string>
  {
    if key in claims && claims[key].Arr? then StringItems(claims[key].items) else []
  }

  /** An absent claim, or one that is not an array, carries no names. */
  lemma ClaimNamesNotArray(claims: Claims, key: string)
    requires key !in claims || !claims[key].Arr?
    ensures ClaimNames(claims, key) == []
  {
  }

  /** The loop that copies the string elements of a claim array into a fresh slice. */
  method CollectNames(claims: Claims, key: string) returns (names: seq<string>)
    ensures names == ClaimNames(claims, key)
  {
    names := [];
    if key in claims && claims[key].Arr? {
      var items := claims[key].items;
      var i := 0;
      while i < |items|
        invariant 0 <= i <= |items|
        invariant names == StringItems(items[..i])
      {
        StringItemsAppend(items[..i], [items[i]]);
        assert items[..i + 1] == items[..i] + [items[i]];
        if items[i].Str? {
          names := names + [items[i].s];
        }
        i := i + 1;
      }
      assert items[..i] == items;
    }
  }

  /** The error text strconv.ParseUint gives for `input`. */
  function ParseUintErrorText(input: string, err: NumError): string
  {
    "strconv.ParseUint: parsing \"" + input + "\": "
      + (if err == ErrSyntax then "invalid syntax" else "value out of range")
  }

  /**
   * ExtractTokenMetadata, as a function of the Authorization header and of
   * the token parser: the text after the first space is parsed (a header
   * without a space has no second field and the index panics); a claim of
   * the wrong type panics at its type assertion; an id that is negative or
   * beyond 64 bits is a ParseUint error; roles and groups keep their string
   * elements.
   */
  function MetadataOf(header: string, parse: string -> Parse): (r: Extracted)
    ensures r.ExtractPanic? <==>
      (|Split(header, ' ')| < 2 ||
       (parse(Split(header, ' ')[1]).Verified? && !WellTyped(parse(Split(header, ' ')[1]).claims)))
  {
    var fields := Split(header, ' ');
    if |fields| < 2 then ExtractPanic
    else match parse(fields[1])
      case ParseError(msg) => ExtractError(msg)
      case Verified(c) =>
        if !IdentityTyped(c) then ExtractPanic
        else
          var text := FormatInt(c["id"].n);
          var id := ParseUint(text, 10);
          if id.err.Some? then ExtractError(ParseUintErrorText(text, id.err.value))
          else if !("expires" in c && c["expires"].Num?) then ExtractPanic
          else Extracted(TokenMetadata(id.value, c["fullname"].s, c["username"].s,
                                       ClaimNames(c, "roles"), ClaimNames(c, "groups"), c["expires"].n))
  }

  /** The claims asserted before the id is parsed have the types the code asserts. */
  predicate IdentityTyped(c: Claims)
  {
    "id" in c && c["id"].Num? && "fullname" in c && c["fullname"].Str? && "username" in c && c["username"].Str?
  }

  /** Every type assertion on the claims that the code reaches succeeds. */
  predicate WellTyped(c: Claims)
  {
    IdentityTyped(c) &&
    (ParseUint(FormatInt(c["id"].n), 10).err.None? ==> "expires" in c && c["expires"].Num?)
  }

  /** A well-typed token with an id in the 64-bit range yields its claims, names filtered. */
  lemma MetadataOfValidToken(scheme: string, token: string, parse: string -> Parse)
    requires ' ' !in scheme && ' ' !in token
    requires parse(token).Verified? && IdentityTyped(parse(token).claims)
    requires "expires" in parse(token).claims && parse(token).claims["expires"].Num?
    requires 0 <= parse(token).claims["id"].n <= MaxUint64
    ensures var c := parse(token).claims;
      MetadataOf(scheme + " " + token, parse) ==
        Extracted(TokenMetadata(c["id"].n, c["fullname"].s, c["username"].s,
                                ClaimNames(c, "roles"), ClaimNames(c, "groups"), c["expires"].n))
  {
    SplitWithout(token, ' ');
    SplitAround(scheme, token, ' ');
    ParseUintDecimal(parse(token).claims["id"].n, 10);
  }

  /** ExtractTokenMetadata, with its two collecting loops. */
  method ExtractTokenMetadata(header: string, parse: string -> Parse) returns (r: Extracted)
    ensures r == MetadataOf(header, parse)
  {
    var fields := Split(header, ' ');
    if |fields| < 2 {
      return ExtractPanic;
    }
    var parsed := parse(fields[1]);
    if parsed.ParseError? {
      return ExtractError(parsed.msg);
    }
    var c := parsed.claims;
    if !IdentityTyped(c) {
      return ExtractPanic;
    }
    var text := FormatInt(c["id"].n);
    var id := ParseUint(text, 10);
    if id.err.Some? {
      return ExtractError(ParseUintErrorText(text, id.err.value));
    }
    if !("expires" in c && c["expires"].Num?) {
      return ExtractPanic;
    }
    var roles := CollectNames(c, "roles");
    var groups := CollectNames(c, "groups");
    r := Extracted(TokenMetadata(id.value, c["fullname"].s, c["username"].s, roles, groups, c["expires"].n));
  }

  // --------------------------------------------------------------- decision

  /** A token is expired only once the clock has passed its expiry second. */
  predicate Expired(now: int, expires: int)
  {
    now > expires
  }

  /** The token expires at second `expires` and is valid at it and every second before. */
  lemma ExpiryBoundary(expires: int, now: int)
    ensures !Expired(expires, expires) && Expired(expires + 1, expires)
    ensures now <= expires ==> !Expired(now, expires)
  {
  }

  /**
   * What the wrapped JWT middleware leaves behind: the error it returned and
   * whether it stored a token in the request's locals. Its own handling of
   * the request is not modelled.
   */
  datatype JwtStep = JwtStep(err: Option<string>, stored: bool)

  datatype Outcome = Proceed | Rejected | Panicked

  /** The replies written, in order, and how the request ended. */
  datatype Decision = Decision(written: seq<Reply>, outcome: Outcome)

  /** The reply jwtError writes for a failed token check. */
  function JwtError(msg: string): (r: Reply)
    ensures r.message == msg
    ensures r.status == StatusBadRequest <==> msg == "Missing or malformed JWT"
    ensures r.status == StatusBadRequest || r.status == StatusUnauthorized
  {
    if msg == "Missing or malformed JWT" then Reply(StatusBadRequest, msg)
    else Reply(StatusUnauthorized, msg)
  }

  /** The membership test that decides between Next and "denied". */
  predicate Authorized(roles: seq<string>, groups: seq<string>, meta: TokenMetadata)
  {
    ParseRolesGroups(groups, meta.groups) && ParseRolesGroups(roles, meta.roles)
  }

  /**
   * The handler AuthRequired returns, run on one request, as written: each
   * failed check writes a 401 and falls through to the next step. Reading
   * the message of an absent error, or the expiry of absent metadata,
   * panics.
   */
  function Guard(roles: seq<string>, groups: seq<string>, step: JwtStep, extracted: Extracted, now: int): (d: Decision)
    ensures d.outcome.Panicked? <==> (step.err.None? && !step.stored) || !extracted.Extracted?
    ensures !d.outcome.Panicked? ==> (d.outcome.Proceed? <==> Authorized(roles, groups, extracted.meta))
    ensures d.outcome.Rejected? ==> |d.written| > 0 && d.written[|d.written| - 1] == Reply(StatusUnauthorized, "denied")
  {
    var w1 := if step.err.Some? then [Reply(StatusUnauthorized, step.err.value)] else [];
    if step.err.None? && !step.stored then Decision([], Panicked)
    else match extracted
      case ExtractPanic => Decision(w1, Panicked)
      case ExtractError(msg) => Decision(w1 + [Reply(StatusUnauthorized, msg)], Panicked)
      case Extracted(meta) =>
        var w2 := w1 + (if Expired(now, meta.expires) then [Reply(StatusUnauthorized, "expired")] else []);
        if Authorized(roles, groups, meta) then Decision(w2, Proceed)
        else Decision(w2 + [Reply(StatusUnauthorized, "denied")], Rejected)
  }

  /** AuthRequired's handler, writing its replies step by step. */
  method AuthRequired(roles: seq<string>, groups: seq<string>, step: JwtStep,
                      header: string, parse: string -> Parse, now: int)
    returns (written: seq<Reply>, outcome: Outcome)
    ensures Decision(written, outcome) == Guard(roles, groups, step, MetadataOf(header, parse), now)
  {
    if step.err.None? && !step.stored {
      return [], Panicked;
    }
    var extracted := ExtractTokenMetadata(header, parse);
    written, outcome := Respond(roles, groups, step, extracted, now);
  }

  /**
   * The handler's steps once a token was stored or the JWT step failed:
   * the JWT error's 401, the metadata error's 401, the expiry 401, and the
   * membership test, each written in turn.
   */
  method Respond(roles: seq<string>, groups: seq<string>, step: JwtStep, extracted: Extracted, now: int)
    returns (written: seq<Reply>, outcome: Outcome)
    requires step.err.Some? || step.stored
    ensures Decision(written, outcome) == Guard(roles, groups, step, extracted, now)
  {
    written := [];
    if step.err.Some? {
      written := written + [Reply(StatusUnauthorized, step.err.value)];
    }
    if extracted.ExtractError? {
      written := written + [Reply(StatusUnauthorized, extracted.msg)];
    }
    if !extracted.Extracted? {
      return written, Panicked;
    }
    var meta := extracted.meta;
    if Expired(now, meta.expires) {
      written := written + [Reply(StatusUnauthorized, "expired")];
    }
    var hasGroup := ParseRolesGroups(groups, meta.groups);
    var hasRole := ParseRolesGroups(roles, meta.roles);
    if hasGroup && hasRole {
      outcome := Proceed;
    } else {
      written := written + [Reply(StatusUnauthorized, "denied")];
      outcome := Rejected;
    }
  }

  /**
   * The fall-through lets an expired token through: with the JWT step
   * passed and an empty requirement, a token that expired long ago still
   * reaches the protected handler, after a 401 "expired" was written.
   */
  lemma ExpiredTokenProceeds(meta: TokenMetadata, now: int)
    requires Expired(now, meta.expires)
    ensures Guard([], [], JwtStep(None, true), Extracted(meta), now) ==
      Decision([Reply(StatusUnauthorized, "expired")], Proceed)
  {
  }

  /**
   * The decision the 401 replies are evidently meant to take: each failed
   * check ends the request with its reply, and the request proceeds only
   * past every check.
   */
  function GuardIntended(roles: seq<string>, groups: seq<string>, step: JwtStep, extracted: Extracted, now: int): (d: Decision)
    ensures !d.outcome.Panicked?
    ensures d.outcome.Proceed? ==> d.written == []
    ensures d.outcome.Rejected? ==> |d.written| == 1 && d.written[0].status == StatusUnauthorized
  {
    if step.err.Some? then Decision([Reply(StatusUnauthorized, step.err.value)], Rejected)
    else if !step.stored then Decision([Reply(StatusUnauthorized, "missing token")], Rejected)
    else match extracted
      case ExtractPanic => Decision([Reply(StatusUnauthorized, "malformed token")], Rejected)
      case ExtractError(msg) => Decision([Reply(StatusUnauthorized, msg)], Rejected)
      case Extracted(meta) =>
        if Expired(now, meta.expires) then Decision([Reply(StatusUnauthorized, "expired")], Rejected)
        else if !Authorized(roles, groups, meta) then Decision([Reply(StatusUnauthorized, "denied")], Rejected)
        else Decision([], Proceed)
  }

  /**
   * Under the intended decision a request proceeds exactly when the token
   * passed the JWT step, its metadata was read, it has not expired and the
   * membership test passes; on such requests the two decisions agree.
   */
  lemma GuardIntendedProceedsIff(roles: seq<string>, groups: seq<string>, step: JwtStep, extracted: Extracted, now: int)
    ensures GuardIntended(roles, groups, step, extracted, now).outcome.Proceed? <==>
      step.err.None? && step.stored && extracted.Extracted? &&
      !Expired(now, extracted.meta.expires) && Authorized(roles, groups, extracted.meta)
    ensures GuardIntended(roles, groups, step, extracted, now).outcome.Proceed? ==>
      Guard(roles, groups, step, extracted, now) == Decision([], Proceed)
  {
  }
}
