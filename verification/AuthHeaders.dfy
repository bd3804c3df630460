/**
 Propagating an authentication context through request headers: the printer, the parser, and what a context becomes
 on its way through both. JSON is any codec that reads back what it wrote.
 */
module AuthHeaders {

  import opened Options
  import opened Strings

  const SUBJECT := "x-auth-subject"
  const ROLES := "x-auth-roles"
  const SCOPES := "x-auth-scopes"
  const CLAIMS := "x-auth-claims"
  const NAME := "x-auth-name"
  const TYPE := "x-auth-type"

  const MAX_HEADER_BYTES := 8192

  datatype Json =
    | Null
    | Boolean(value: bool)
    | Number(digits: string)
    | Text(text: string)
    | Array(items: seq<Json>)
    | Object(members: map<string, Json>)

  datatype Codec = Codec(stringify: Json -> string, parse: string -> Option<Json>)

  /** It reads back what it wrote, and an empty text is no value. */
  ghost predicate RoundTrips(codec: Codec)
  {
    codec.parse("").None? && forall v :: codec.parse(codec.stringify(v)) == Some(v)
  }

  /** `credential` is the type of the credential, `x-auth-type`. */
  datatype AuthContext = AuthContext(
    subject: string, name: Option<string>, roles: seq<string>, scopes: seq<string>, claims: map<string, Json>,
    credential: string, expiresAt: Option<int>)

  // ---------- sanitizing ----------

  predicate IsControl(c: char)
  {
    c <= '\U{08}' || c == '\U{0B}' || c == '\U{0C}' || '\U{0E}' <= c <= '\U{1F}' || c == '\U{7F}'
  }

  ghost predicate Clean(value: string, maxLength: nat)
  {
    |value| <= maxLength && forall k :: 0 <= k < |value| ==> !IsControl(value[k])
  }

  function WithoutControls(value: string): string
  {
    if value == "" then ""
    else (if IsControl(value[0]) then "" else [value[0]]) + WithoutControls(value[1..])
  }

  function Sanitize(value: string, maxLength: nat): string
  {
    var cleaned := WithoutControls(value);
    if |cleaned| <= maxLength then cleaned else cleaned[..maxLength]
  }

  lemma {:induction false} ControlsAreGone(value: string)
    ensures Clean(WithoutControls(value), |value|)
    ensures Clean(value, |value|) ==> WithoutControls(value) == value
  {
    if value == "" {
    } else {
      ControlsAreGone(value[1..]);
      assert value == [value[0]] + value[1..];
    }
  }

  /** Sanitizing cleans, and leaves exactly the clean values alone. */
  lemma SanitizeCleans(value: string, maxLength: nat)
    ensures Clean(Sanitize(value, maxLength), maxLength)
    ensures Sanitize(value, maxLength) == value <==> Clean(value, maxLength)
  {
    ControlsAreGone(value);
  }

  lemma SanitizeIsIdempotent(value: string, maxLength: nat)
    ensures Sanitize(Sanitize(value, maxLength), maxLength) == Sanitize(value, maxLength)
  {
    SanitizeCleans(value, maxLength);
    SanitizeCleans(Sanitize(value, maxLength), maxLength);
  }

  /** The control characters by their code points: C0 without tab, line feed and carriage return, and delete. */
  lemma ControlCodePoints(c: char)
    ensures IsControl(c) <==>
      c as int <= 8 || c as int == 11 || c as int == 12 || 14 <= c as int <= 31 || c as int == 127
  {}

  /** Cleaning works character by character, and keeps the order. */
  lemma {:induction false} CleaningIsLocal(a: string, b: string)
    ensures WithoutControls(a + b) == WithoutControls(a) + WithoutControls(b)
    ensures |a| == 1 ==> WithoutControls(a) == if IsControl(a[0]) then "" else a
  {
    if a == "" {
      assert a + b == b;
    } else {
      assert (a + b)[1..] == a[1..] + b;
      CleaningIsLocal(a[1..], b);
      assert |a| == 1 ==> a == [a[0]] && a[1..] == "";
    }
  }

  /** Sanitizing keeps the front of the cleaned value, as much of it as is allowed. */
  lemma SanitizeIsFront(value: string, maxLength: nat)
    ensures var cleaned, sanitized := WithoutControls(value), Sanitize(value, maxLength);
      sanitized <= cleaned && |sanitized| == if |cleaned| < maxLength then |cleaned| else maxLength
  {}

  // ---------- scopes ----------

  function NonEmpty(parts: seq<string>): seq<string>
  {
    if parts == [] then []
    else (if parts[0] == "" then [] else [parts[0]]) + NonEmpty(parts[1..])
  }

  ghost predicate Words(parts: seq<string>) { AllFree(parts, ' ') && "" !in parts }

  lemma {:induction false} NonEmptyKeepsWords(parts: seq<string>)
    requires AllFree(parts, ' ')
    ensures Words(NonEmpty(parts))
    ensures "" !in parts ==> NonEmpty(parts) == parts
  {
    if parts == [] {
    } else {
      NonEmptyKeepsWords(parts[1..]);
      assert parts == [parts[0]] + parts[1..];
    }
  }

  function SpaceJoined(parts: seq<string>): string { if parts == [] then "" else Join(parts, ' ') }

  /** Dropping empty parts works part by part, and keeps the order. */
  lemma {:induction false} DroppingIsLocal(a: seq<string>, b: seq<string>)
    ensures NonEmpty(a + b) == NonEmpty(a) + NonEmpty(b)
    ensures |a| == 1 ==> NonEmpty(a) == if a[0] == "" then [] else a
  {
    if a == [] {
      assert a + b == b;
    } else {
      assert (a + b)[1..] == a[1..] + b;
      DroppingIsLocal(a[1..], b);
      assert |a| == 1 ==> a == [a[0]] && a[1..] == [];
    }
  }

  /** Dropping empty parts never makes the joined text longer. */
  lemma {:induction false} NonEmptyIsShorter(parts: seq<string>)
    requires |parts| >= 1
    ensures |SpaceJoined(NonEmpty(parts))| <= |Join(parts, ' ')|
  {
    if |parts| > 1 {
      NonEmptyIsShorter(parts[1..]);
      var rest := NonEmpty(parts[1..]);
      assert NonEmpty(parts) == if parts[0] == "" then rest else [parts[0]] + rest;
      assert ([parts[0]] + rest)[1..] == rest;
    }
  }

  // ---------- what one header holds ----------

  function Filtered(claims: map<string, Json>, propagated: Option<seq<string>>): map<string, Json>
  {
    match propagated
    case Some(keys) => map k | k in claims && k in keys :: claims[k]
    case None => claims
  }

  function Bounded(text: string): Option<string>
  {
    if |text| <= MAX_HEADER_BYTES then Some(text) else None
  }

  function Texts(strings: seq<string>): seq<Json> { seq(|strings|, k requires 0 <= k < |strings| => Text(strings[k])) }

  /** The values written for one context; nothing for a header that is not written. */
  datatype Values = Values(
    subject: string, credential: string, name: Option<string>, roles: Option<string>, scopes: Option<string>,
    claims: Option<string>)

  function Printed(codec: Codec, context: AuthContext, propagated: Option<seq<string>>): Values
  {
    var claims := Filtered(context.claims, propagated);
    Values(
      Sanitize(context.subject, 512),
      Sanitize(context.credential, 128),
      if context.name.Some? && context.name.value != "" then Some(Sanitize(context.name.value, 256)) else None,
      if context.roles != [] then Bounded(codec.stringify(Array(Texts(context.roles)))) else None,
      if context.scopes != [] then Bounded(SpaceJoined(context.scopes)) else None,
      if claims != map[] then Bounded(codec.stringify(Object(claims))) else None)
  }

  function Put(fields: map<string, string>, name: string, value: Option<string>): map<string, string>
  {
    match value
    case Some(v) => fields[name := v]
    case None => fields
  }

  function Written(fields: map<string, string>, values: Values): map<string, string>
  {
    var always := fields[SUBJECT := values.subject][TYPE := values.credential];
    Put(Put(Put(Put(always, NAME, values.name), ROLES, values.roles), SCOPES, values.scopes), CLAIMS, values.claims)
  }

  /** A header that is missing reads as an empty one everywhere. */
  function Field(fields: map<string, string>, name: string): string
  {
    if name in fields then fields[name] else ""
  }

  function StringsIn(items: seq<Json>): seq<string>
  {
    if items == [] then []
    else (if items[0].Text? then [items[0].text] else []) + StringsIn(items[1..])
  }

  function ReadRoles(codec: Codec, raw: string): seq<string>
  {
    if raw == "" || |raw| > MAX_HEADER_BYTES then []
    else match codec.parse(raw)
      case Some(Array(items)) => StringsIn(items)
      case _ => []
  }

  function ReadScopes(raw: string): seq<string>
  {
    if raw == "" || |raw| > MAX_HEADER_BYTES then [] else NonEmpty(Split(raw, ' '))
  }

  function ReadClaims(codec: Codec, raw: string): map<string, Json>
  {
    if raw == "" || |raw| > MAX_HEADER_BYTES then map[]
    else match codec.parse(raw)
      case Some(Object(members)) => members
      case _ => map[]
  }

  function ReadName(raw: string): Option<string>
  {
    if raw == "" then None else Some(Sanitize(raw, 256))
  }

  function ReadType(raw: string): string
  {
    if raw == "" then "unknown" else Sanitize(raw, 128)
  }

  function Parsed(codec: Codec, fields: map<string, string>): Option<AuthContext>
  {
    if Field(fields, SUBJECT) == "" then None
    else Some(AuthContext(
      Sanitize(Field(fields, SUBJECT), 512), ReadName(Field(fields, NAME)),
      ReadRoles(codec, Field(fields, ROLES)), ReadScopes(Field(fields, SCOPES)),
      ReadClaims(codec, Field(fields, CLAIMS)), ReadType(Field(fields, TYPE)), None))
  }

  /** What a receiver sees of a context that was sent in fresh headers. */
  function Received(codec: Codec, context: AuthContext, propagated: Option<seq<string>>): Option<AuthContext>
  {
    Parsed(codec, Written(map[], Printed(codec, context, propagated)))
  }

  // ---------- header by header ----------

  lemma {:induction false} TextsReadBack(strings: seq<string>)
    ensures StringsIn(Texts(strings)) == strings
  {
    if strings == [] {
    } else {
      assert Texts(strings)[1..] == Texts(strings[1..]);
      TextsReadBack(strings[1..]);
      assert strings == [strings[0]] + strings[1..];
    }
  }

  lemma RolesReadBack(codec: Codec, roles: seq<string>)
    requires RoundTrips(codec) && roles != []
    ensures var text := codec.stringify(Array(Texts(roles)));
      ReadRoles(codec, GetOr(Bounded(text), "")) == if |text| <= MAX_HEADER_BYTES then roles else []
  {
    var text := codec.stringify(Array(Texts(roles)));
    TextsReadBack(roles);
    assert codec.parse(text) == Some(Array(Texts(roles)));
  }

  lemma ClaimsReadBack(codec: Codec, claims: map<string, Json>)
    requires RoundTrips(codec)
    ensures var text := codec.stringify(Object(claims));
      ReadClaims(codec, GetOr(Bounded(text), "")) == if |text| <= MAX_HEADER_BYTES then claims else map[]
  {
    var text := codec.stringify(Object(claims));
    assert codec.parse(text) == Some(Object(claims));
  }

  ghost predicate ScopesInBounds(scopes: seq<string>)
  {
    Words(scopes) && |SpaceJoined(scopes)| <= MAX_HEADER_BYTES
  }

  function SentScopes(scopes: seq<string>): seq<string> { ReadScopes(GetOr(Bounded(SpaceJoined(scopes)), "")) }

  /** Scopes arrive as non-empty words within the bound, and such scopes arrive unchanged. */
  lemma ScopesReadBack(scopes: seq<string>)
    ensures ScopesInBounds(SentScopes(scopes))
    ensures SentScopes(scopes) == scopes <==> ScopesInBounds(scopes)
  {
    var text := SpaceJoined(scopes);
    if text != "" && |text| <= MAX_HEADER_BYTES {
      JoinSplit(text, ' ');
      NonEmptyKeepsWords(Split(text, ' '));
      NonEmptyIsShorter(Split(text, ' '));
      if Words(scopes) { SplitJoin(scopes, ' '); }
    }
    if scopes != [] && Words(scopes) { assert scopes[0] in scopes; }
  }

  // ---------- headers that others wrote ----------

  /** Picking the strings out of a JSON array works item by item, and keeps the order. */
  lemma {:induction false} PickingIsLocal(a: seq<Json>, b: seq<Json>)
    ensures StringsIn(a + b) == StringsIn(a) + StringsIn(b)
    ensures |a| == 1 ==> StringsIn(a) == if a[0].Text? then [a[0].text] else []
  {
    if a == [] {
      assert a + b == b;
    } else {
      assert (a + b)[1..] == a[1..] + b;
      PickingIsLocal(a[1..], b);
      assert |a| == 1 ==> a == [a[0]] && a[1..] == [];
    }
  }

  /** Roles come from a JSON array only, claims from a JSON object only, and neither from a text that is too long. */
  lemma ForeignHeaders(codec: Codec, raw: string)
    ensures var parsed := if raw != "" && Fits(raw) then codec.parse(raw) else None;
      && ReadRoles(codec, raw) == (if parsed.Some? && parsed.value.Array? then StringsIn(parsed.value.items) else [])
      && ReadClaims(codec, raw) == (if parsed.Some? && parsed.value.Object? then parsed.value.members else map[])
  {}

  /** Headers of other names stay as they were. */
  lemma OtherHeadersStay(fields: map<string, string>, values: Values, name: string)
    requires name !in {SUBJECT, TYPE, NAME, ROLES, SCOPES, CLAIMS}
    ensures var written := Written(fields, values);
      (name in written <==> name in fields) && (name in fields ==> written[name] == fields[name])
  {}

  // ---------- through both ----------

  predicate Fits(text: string) { |text| <= 8192 }

  /** The contexts that need no cutting, dropping or defaulting. */
  ghost predicate InBounds(codec: Codec, context: AuthContext, propagated: Option<seq<string>>)
  {
    && context.subject != "" && Clean(context.subject, 512)
    && context.credential != "" && Clean(context.credential, 128)
    && (context.name.Some? ==> context.name.value != "" && Clean(context.name.value, 256))
    && (context.roles != [] ==> Fits(codec.stringify(Array(Texts(context.roles)))))
    && ScopesInBounds(context.scopes)
    && (propagated.Some? ==> forall k :: k in context.claims ==> k in propagated.value)
    && (context.claims != map[] ==> Fits(codec.stringify(Object(context.claims))))
    && context.expiresAt.None?
  }

  lemma WrittenFields(fields: map<string, string>, values: Values)
    ensures var written := Written(fields, values);
      && Field(written, SUBJECT) == values.subject && Field(written, TYPE) == values.credential
      && Field(written, NAME) == GetOr(values.name, Field(fields, NAME))
      && Field(written, ROLES) == GetOr(values.roles, Field(fields, ROLES))
      && Field(written, SCOPES) == GetOr(values.scopes, Field(fields, SCOPES))
      && Field(written, CLAIMS) == GetOr(values.claims, Field(fields, CLAIMS))
  {}

  /** A context sent with no name, roles, scopes or claims of its own takes those the headers held before. */
  lemma OldHeadersShowThrough(codec: Codec, fields: map<string, string>, values: Values)
    requires values.subject != ""
    ensures Parsed(codec, Written(fields, values)) == Parsed(codec, Written(map[], values)) <==>
      && (values.name.None? ==> ReadName(Field(fields, NAME)) == None)
      && (values.roles.None? ==> ReadRoles(codec, Field(fields, ROLES)) == [])
      && (values.scopes.None? ==> ReadScopes(Field(fields, SCOPES)) == [])
      && (values.claims.None? ==> ReadClaims(codec, Field(fields, CLAIMS)) == map[])
  {
    hide Written, Field, ReadName, ReadRoles, ReadScopes, ReadClaims;
    WrittenFields(fields, values);
    WrittenFields(map[], values);
    NothingRead(codec);
  }

  lemma NothingRead(codec: Codec)
    ensures ReadName("") == None && ReadRoles(codec, "") == [] && ReadScopes("") == [] && ReadClaims(codec, "") == map[]
    ensures forall name :: Field(map[], name) == ""
  {}

  /** The context that arrives, part by part. */
  function Arriving(codec: Codec, context: AuthContext, propagated: Option<seq<string>>): AuthContext
  {
    var values := Printed(codec, context, propagated);
    AuthContext(
      values.subject, ReadName(GetOr(values.name, "")), ReadRoles(codec, GetOr(values.roles, "")),
      ReadScopes(GetOr(values.scopes, "")), ReadClaims(codec, GetOr(values.claims, "")),
      ReadType(values.credential), None)
  }

  lemma ReceivedIsArriving(codec: Codec, context: AuthContext, propagated: Option<seq<string>>)
    ensures Received(codec, context, propagated) ==
      if Sanitize(context.subject, 512) == "" then None else Some(Arriving(codec, context, propagated))
  {
    hide Written, Field, ReadName, ReadRoles, ReadScopes, ReadClaims, ReadType, Sanitize;
    WrittenFields(map[], Printed(codec, context, propagated));
    NothingRead(codec);
    SanitizeIsIdempotent(context.subject, 512);
  }

  lemma NamesReadBack(name: Option<string>)
    ensures var sent := ReadName(if name.Some? && name.value != "" then Sanitize(name.value, 256) else "");
      && (sent.Some? ==> sent.value != "" && Clean(sent.value, 256))
      && (sent == name <==> name.Some? ==> name.value != "" && Clean(name.value, 256))
  {
    if name.Some? {
      SanitizeIsIdempotent(name.value, 256);
      SanitizeCleans(name.value, 256);
    }
  }

  lemma TypesReadBack(credential: string)
    ensures var sent := ReadType(Sanitize(credential, 128));
      && sent != "" && Clean(sent, 128)
      && (sent == credential <==> credential != "" && Clean(credential, 128))
  {
    SanitizeIsIdempotent(credential, 128);
    SanitizeCleans(credential, 128);
  }

  lemma FilteredTwice(claims: map<string, Json>, propagated: Option<seq<string>>)
    ensures Filtered(Filtered(claims, propagated), propagated) == Filtered(claims, propagated)
    ensures Filtered(map[], propagated) == map[]
  {}

  /** Filtering leaves exactly the claims alone whose keys may all be propagated. */
  lemma FilteredLeaves(claims: map<string, Json>, propagated: Option<seq<string>>)
    ensures Filtered(claims, propagated) == claims <==>
      (propagated.Some? ==> forall k :: k in claims ==> k in propagated.value)
    ensures propagated.Some? ==> forall k :: k in Filtered(claims, propagated) ==> k in propagated.value
  {
    if propagated.Some? && Filtered(claims, propagated) == claims {
      forall k | k in claims ensures k in propagated.value { assert k in Filtered(claims, propagated); }
    }
  }

  lemma ArrivingFits(codec: Codec, context: AuthContext, propagated: Option<seq<string>>)
    requires RoundTrips(codec) && Sanitize(context.subject, 512) != ""
    ensures InBounds(codec, Arriving(codec, context, propagated), propagated)
  {
    hide ReadName, ReadRoles, ReadScopes, ReadClaims, ReadType, Sanitize, ScopesInBounds, Filtered, Clean, RoundTrips;
    SanitizeCleans(context.subject, 512);
    NamesReadBack(context.name);
    TypesReadBack(context.credential);
    ScopesReadBack(context.scopes);
    NothingRead(codec);
    if context.roles != [] { RolesReadBack(codec, context.roles); }
    ClaimsReadBack(codec, Filtered(context.claims, propagated));
    FilteredTwice(context.claims, propagated);
    FilteredLeaves(context.claims, propagated);
  }

  lemma ArrivingIsSent(codec: Codec, context: AuthContext, propagated: Option<seq<string>>)
    requires RoundTrips(codec) && Sanitize(context.subject, 512) != ""
    ensures Arriving(codec, context, propagated) == context <==> InBounds(codec, context, propagated)
  {
    hide ReadName, ReadRoles, ReadScopes, ReadClaims, ReadType, Sanitize, ScopesInBounds, Filtered, Clean, RoundTrips;
    SanitizeCleans(context.subject, 512);
    NamesReadBack(context.name);
    TypesReadBack(context.credential);
    ScopesReadBack(context.scopes);
    NothingRead(codec);
    if context.roles != [] { RolesReadBack(codec, context.roles); }
    ClaimsReadBack(codec, Filtered(context.claims, propagated));
    FilteredTwice(context.claims, propagated);
    FilteredLeaves(context.claims, propagated);
  }

  /** What arrives is within bounds, and it is what was sent exactly when that was within bounds. */
  lemma ArrivingIsInBounds(codec: Codec, context: AuthContext, propagated: Option<seq<string>>)
    requires RoundTrips(codec) && Sanitize(context.subject, 512) != ""
    ensures var arriving := Arriving(codec, context, propagated);
      && InBounds(codec, arriving, propagated)
      && (arriving == context <==> InBounds(codec, context, propagated))
  {
    ArrivingFits(codec, context, propagated);
    ArrivingIsSent(codec, context, propagated);
  }

  /** The claims of the context with a key that may be propagated; all of them without a list. */
  function Allowed(context: AuthContext, propagated: Option<seq<string>>): map<string, Json>
  {
    map k | k in context.claims && (propagated.Some? ==> k in propagated.value) :: context.claims[k]
  }

  /** What arrives of the claims: those with an allowed key, all of them if their text fits, else none. */
  lemma ClaimsThatArrive(codec: Codec, context: AuthContext, propagated: Option<seq<string>>)
    requires RoundTrips(codec) && Received(codec, context, propagated).Some?
    ensures var claims, sent := Received(codec, context, propagated).value.claims, Allowed(context, propagated);
      && (forall k :: k in claims ==>
            k in context.claims && claims[k] == context.claims[k] && (propagated.Some? ==> k in propagated.value))
      && (Fits(codec.stringify(Object(sent))) ==> claims == sent)
      && (!Fits(codec.stringify(Object(sent))) ==> claims == map[])
  {
    hide ReadName, ReadRoles, ReadScopes, ReadClaims, ReadType, Sanitize, RoundTrips;
    ReceivedIsArriving(codec, context, propagated);
    NothingRead(codec);
    assert Filtered(context.claims, propagated) == Allowed(context, propagated);
    ClaimsReadBack(codec, Filtered(context.claims, propagated));
  }

  /** What arrives of everything else: sanitized, dropped where it does not fit, and defaulted. */
  lemma PartsThatArrive(codec: Codec, context: AuthContext, propagated: Option<seq<string>>)
    requires RoundTrips(codec) && Received(codec, context, propagated).Some?
    ensures var received := Received(codec, context, propagated).value;
      var name := if context.name.Some? then Sanitize(context.name.value, 256) else "";
      var credential := Sanitize(context.credential, 128);
      && received.subject == Sanitize(context.subject, 512)
      && received.name == (if name == "" then None else Some(name))
      && received.credential == (if credential == "" then "unknown" else credential)
      && received.roles ==
         (if context.roles != [] && Fits(codec.stringify(Array(Texts(context.roles)))) then context.roles else [])
      && received.scopes ==
         (if Fits(SpaceJoined(context.scopes)) then NonEmpty(Split(SpaceJoined(context.scopes), ' ')) else [])
      && received.expiresAt == None
  {
    hide ReadRoles, ReadClaims, Filtered, RoundTrips, Sanitize;
    ReceivedIsArriving(codec, context, propagated);
    NothingRead(codec);
    if context.roles != [] { RolesReadBack(codec, context.roles); }
    if context.name.Some? { SanitizeIsIdempotent(context.name.value, 256); }
    SanitizeIsIdempotent(context.credential, 128);
    EmptySanitized(256);
    assert NonEmpty(Split("", ' ')) == [];
  }

  lemma EmptySanitized(maxLength: nat)
    ensures Sanitize("", maxLength) == ""
  {}

  /** A context arrives exactly when something is left of its subject. */
  lemma ArrivesIffSubject(codec: Codec, context: AuthContext, propagated: Option<seq<string>>)
    ensures Received(codec, context, propagated).Some? <==>
      exists k :: 0 <= k < |context.subject| && !IsControl(context.subject[k])
  {
    ReceivedIsArriving(codec, context, propagated);
    SomethingIsLeft(context.subject);
  }

  lemma {:induction false} SomethingIsLeft(value: string)
    ensures WithoutControls(value) != "" <==> exists k :: 0 <= k < |value| && !IsControl(value[k])
  {
    if value == "" {
    } else {
      SomethingIsLeft(value[1..]);
      if k :| 0 <= k < |value| && !IsControl(value[k]) { assert k > 0 ==> value[1..][k - 1] == value[k]; }
      if k :| 0 <= k < |value| - 1 && !IsControl(value[1..][k]) { assert value[k + 1] == value[1..][k]; }
    }
  }

  /** The contexts that arrive unchanged are exactly those within bounds. */
  lemma UnchangedIffInBounds(codec: Codec, context: AuthContext, propagated: Option<seq<string>>)
    requires RoundTrips(codec)
    ensures Received(codec, context, propagated) == Some(context) <==> InBounds(codec, context, propagated)
  {
    ReceivedIsArriving(codec, context, propagated);
    SanitizeCleans(context.subject, 512);
    if Sanitize(context.subject, 512) != "" { ArrivingIsInBounds(codec, context, propagated); }
  }

  /** Passing a context on a second time, or any number of times, changes nothing more. */
  lemma SecondHopChangesNothing(codec: Codec, context: AuthContext, propagated: Option<seq<string>>)
    requires RoundTrips(codec) && Received(codec, context, propagated).Some?
    ensures var received := Received(codec, context, propagated).value;
      Received(codec, received, propagated) == Some(received)
  {
    ReceivedIsArriving(codec, context, propagated);
    ArrivingIsInBounds(codec, context, propagated);
    UnchangedIffInBounds(codec, Arriving(codec, context, propagated), propagated);
  }

  // ---------- the code ----------

  class Headers {
    var fields: map<string, string>

    constructor ()
      ensures fields == map[]
    {
      fields := map[];
    }

    method Set(name: string, value: string)
      modifies this
      ensures fields == old(fields)[name := value]
    {
      fields := fields[name := value];
    }
  }

  method SetAuthHeaders(headers: Headers, codec: Codec, context: AuthContext, propagated: Option<seq<string>>)
    modifies headers
    ensures headers.fields == Written(old(headers.fields), Printed(codec, context, propagated))
  {
    hide Sanitize, SpaceJoined, Texts, Filtered;
    headers.Set(SUBJECT, Sanitize(context.subject, 512));
    headers.Set(TYPE, Sanitize(context.credential, 128));
    if context.name.Some? && context.name.value != "" {
      headers.Set(NAME, Sanitize(context.name.value, 256));
    }
    if |context.roles| > 0 {
      var rolesValue := codec.stringify(Array(Texts(context.roles)));
      if |rolesValue| <= MAX_HEADER_BYTES { headers.Set(ROLES, rolesValue); }
    }
    if |context.scopes| > 0 {
      var scopesValue := SpaceJoined(context.scopes);
      if |scopesValue| <= MAX_HEADER_BYTES { headers.Set(SCOPES, scopesValue); }
    }
    FilteredTwice(context.claims, propagated);
    if context.claims != map[] {
      var filteredClaims := Filtered(context.claims, propagated);
      if filteredClaims != map[] {
        var claimsValue := codec.stringify(Object(filteredClaims));
        if |claimsValue| <= MAX_HEADER_BYTES { headers.Set(CLAIMS, claimsValue); }
      }
    }
  }

  method ParseAuthHeaders(headers: Headers, codec: Codec) returns (context: Option<AuthContext>)
    ensures context == Parsed(codec, headers.fields)
  {
    hide Sanitize, StringsIn, NonEmpty, Field;
    var subjectHeader := Field(headers.fields, SUBJECT);
    if subjectHeader == "" { return None; }
    var typeHeader := Field(headers.fields, TYPE);
    var credential := if typeHeader != "" then Sanitize(typeHeader, 128) else "unknown";
    var rolesRaw, scopesRaw := Field(headers.fields, ROLES), Field(headers.fields, SCOPES);
    var roles: seq<string>, scopes: seq<string>, claims: map<string, Json> := [], [], map[];
    if rolesRaw != "" && |rolesRaw| <= MAX_HEADER_BYTES {
      match codec.parse(rolesRaw) {
        case Some(Array(items)) => roles := StringsIn(items);
        case _ =>
      }
    }
    if scopesRaw != "" && |scopesRaw| <= MAX_HEADER_BYTES { scopes := NonEmpty(Split(scopesRaw, ' ')); }
    var nameRaw := Field(headers.fields, NAME);
    var name := if nameRaw != "" then Some(Sanitize(nameRaw, 256)) else None;
    var claimsRaw := Field(headers.fields, CLAIMS);
    if claimsRaw != "" && |claimsRaw| <= MAX_HEADER_BYTES {
      match codec.parse(claimsRaw) {
        case Some(Object(members)) => claims := members;
        case _ =>
      }
    }
    return Some(AuthContext(Sanitize(subjectHeader, 512), name, roles, scopes, claims, credential, None));
  }
}
