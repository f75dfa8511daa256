/**
 * The built-in validators of the settings store. Each one receives the
 * setting document, rewrites its `value` in place to the normalised form and
 * either returns or raises. The spec functions give, for a value, the
 * Outcome a validator leaves behind: the document's value afterwards (a
 * validator may have rewritten it before raising) and the error, if any.
 * The methods are the in-place validators themselves, proved against them.
 */
module SettingValidators {
  import opened Values
  import opened Text
  import opened Numbers

  /** A setting document as the store hands it to a validator: a mutable record. */
  class SettingDoc {
    var id: Option<nat>
    var key: string
    var value: Value

    constructor (id: Option<nat>, key: string, value: Value)
      ensures this.id == id && this.key == key && this.value == value
    {
      this.id := id;
      this.key := key;
      this.value := value;
    }
  }

  /** The services outside this core that two validators call. */
  datatype Collaborators = Collaborators(
    // the plugin resolver: the transitive dependency closure of the named plugins, topologically sorted
    toposortPlugins: seq<Value> -> seq<Value>,
    // whether load(id, force=True, exc=True) of a group, or of a user, finds the record
    groupLoads: Value -> bool,
    userLoads: Value -> bool)

  /** The validator registered for a key: one of the built-in ones, or a plugin's. */
  datatype Validator =
    | CorePluginsEnabled
    | CoreAddToGroupPolicy
    | CoreCollectionCreatePolicy
    | CoreCookieLifetime
    | CoreCorsAllowMethods
    | CoreCorsAllowHeaders
    | CoreCorsAllowOrigin
    | CoreEmailFromAddress
    | CoreEmailHost
    | CoreRegistrationPolicy
    | CoreEmailVerification
    | CoreSmtpHost
    | CoreSmtpPort
    | CoreSmtpEncryption
    | CoreSmtpUsername
    | CoreSmtpPassword
    | CoreUploadMinimumChunkSize
    | CoreUserDefaultFolders
    | Plugin(run: Value -> Outcome)

  const ValueField: Option<string> := Some("value")

  const PluginsEnabledMessage := "Plugins enabled setting must be a list."
  const AddToGroupPolicyMessage := "Add to group policy must be one of \"never\", \"noadmin\", \"nomod\", \"yesadmin\", or \"yesmod\"."
  const PolicyObjectMessage := "Collection creation policy must be a JSON object."
  const CookieLifetimeMessage := "Cookie lifetime must be an integer > 0."
  const CorsMethodsMessage := "Allowed methods must be a comma-separated list or an empty string."
  const CorsHeadersMessage := "Allowed headers must be a comma-separated list or an empty string."
  const CorsOriginMessage := "Allowed origin must be a comma-separated list of base urls or * or an empty string."
  const EmailFromAddressMessage := "Email from address must not be blank."
  const EmailHostMessage := "Email host must be a string."
  const RegistrationPolicyMessage := "Registration policy must be \"open\", \"closed\", or \"approve\"."
  const EmailVerificationMessage := "Email verification must be \"required\", \"optional\", or \"disabled\"."
  const SmtpHostMessage := "SMTP host must not be blank."
  const SmtpPortMessage := "SMTP port must be an integer > 0."
  const SmtpEncryptionMessage := "SMTP encryption must be one of \"none\", \"starttls\", or \"ssl\"."
  const UploadChunkSizeMessage := "Upload minimum chunk size must be an integer >= 0."
  const UserDefaultFoldersMessage := "User default folders must be either \"public_private\" or \"none\"."

  const AddToGroupPolicies: set<string> := {"never", "noadmin", "nomod", "yesadmin", "yesmod", ""}
  const RegistrationPolicies: set<string> := {"open", "closed", "approve"}
  const EmailVerificationModes: set<string> := {"required", "optional", "disabled"}
  const SmtpEncryptions: set<string> := {"none", "starttls", "ssl"}
  const UserDefaultFolderModes: set<string> := {"public_private", "none"}

  /** The AttributeError that `.lower()` raises on a value that is not a string. */
  const NoLowerError := TypeError("object has no attribute 'lower'")
  /** The TypeError that int() raises on None, a list, an object or an ObjectId. */
  const IntArgumentError := TypeError("int() argument must be a string or a number")
  /** The TypeError of iterating, or assigning into, a groups or users field that is not a list. */
  const NotAListError := TypeError("object is not a list")

  /** A check that keeps the value and raises on field `value` unless ok holds. */
  function Check(v: Value, ok: bool, msg: string): (o: Outcome)
    ensures o.value == v
    ensures o.error.None? <==> ok
    ensures o.error.Some? ==> o.error.value == ValidationError(msg, ValueField)
  {
    Outcome(v, if ok then None else Some(ValidationError(msg, ValueField)))
  }

  /** `doc['value'] = doc['value'].lower()`, then membership of the lower-cased string in allowed. */
  function LowerChoice(v: Value, allowed: set<string>, msg: string): (o: Outcome)
    ensures !v.Str? ==> o == Outcome(v, Some(NoLowerError))
    ensures v.Str? ==> o.value == Str(Lower(v.s))
    ensures v.Str? ==> (o.error.None? <==> Lower(v.s) in allowed)
    ensures v.Str? && o.error.Some? ==> o.error.value == ValidationError(msg, ValueField)
  {
    if v.Str? then Check(Str(Lower(v.s)), Lower(v.s) in allowed, msg)
    else Outcome(v, Some(NoLowerError))
  }

  /** Membership of the value, unchanged, in a fixed set of strings; any other value fails. */
  function ExactChoice(v: Value, allowed: set<string>, msg: string): (o: Outcome)
    ensures o.value == v
    ensures o.error.None? <==> v.Str? && v.s in allowed
    ensures o.error.Some? ==> o.error.value == ValidationError(msg, ValueField)
  {
    Check(v, v.Str? && v.s in allowed, msg)
  }

  /**
   * `doc['value'] = int(doc['value'])`, then a lower bound. A ValueError of
   * int() becomes the validation error; its TypeError escapes.
   */
  function IntAtLeast(v: Value, min: int, msg: string): (o: Outcome)
    ensures o.error.None? <==> IntOf(v).Converted? && IntOf(v).n >= min
    ensures o.error.None? ==> o.value == Int(IntOf(v).n)
    ensures IntOf(v).Converted? ==> o.value == Int(IntOf(v).n)
    ensures !IntOf(v).Converted? ==> o.value == v
    ensures IntOf(v).TypeErr? ==> o.error == Some(IntArgumentError)
    ensures !IntOf(v).TypeErr? && o.error.Some? ==> o.error.value == ValidationError(msg, ValueField)
  {
    match IntOf(v)
    case Converted(n) => Check(Int(n), n >= min, msg)
    case ValueErr => Outcome(v, Some(ValidationError(msg, ValueField)))
    case TypeErr => Outcome(v, Some(IntArgumentError))
  }

  /** A string value is replaced by normalise of it; any other value fails with msg. */
  function StringOnly(v: Value, normalise: string -> string, msg: string): (o: Outcome)
    ensures v.Str? ==> o == Outcome(Str(normalise(v.s)), None)
    ensures !v.Str? ==> o == Outcome(v, Some(ValidationError(msg, ValueField)))
  {
    if v.Str? then Outcome(Str(normalise(v.s)), None)
    else Outcome(v, Some(ValidationError(msg, ValueField)))
  }

  /** The plugins-enabled list, replaced by its dependency closure in topological order. */
  function PluginsEnabled(v: Value, toposort: seq<Value> -> seq<Value>): (o: Outcome)
    ensures v.List? ==> o == Outcome(List(toposort(v.items)), None)
    ensures !v.List? ==> o == Outcome(v, Some(ValidationError(PluginsEnabledMessage, ValueField)))
  {
    if v.List? then Outcome(List(toposort(v.items)), None)
    else Outcome(v, Some(ValidationError(PluginsEnabledMessage, ValueField)))
  }

  // ---- CORS lists ------------------------------------------------------------

  /** The tokens of a CORS list: commas become spaces, the ends are stripped, the rest is split on whitespace. */
  function CorsTokens(s: string): (ws: seq<string>)
    ensures forall w :: w in ws ==> IsWord(w) && ',' !in w
  {
    var t := Strip(Replace(s, ',', ' '));
    assert forall c :: c in t ==> c != ',';
    Words(t)
  }

  /** The allowed-methods normalisation: upper-cased tokens, first occurrences only, joined with ", ". */
  function CorsMethods(s: string): (r: string)
    ensures CorsTokens(r) == Dedup(Words(Upper(Strip(Replace(s, ',', ' ')))))
    ensures r == Join(CorsTokens(r), ", ")
  {
    var ws := Dedup(Words(Upper(Strip(Replace(s, ',', ' ')))));
    MethodTokens(s);
    CorsReadBack(ws);
    Join(ws, ", ")
  }

  /** The allowed-headers normalisation: tokens as given, first occurrences only, joined with ", ". */
  function CorsHeaders(s: string): (r: string)
    ensures CorsTokens(r) == Dedup(CorsTokens(s))
    ensures r == Join(CorsTokens(r), ", ")
  {
    var ws := Dedup(CorsTokens(s));
    CorsReadBack(ws);
    Join(ws, ", ")
  }

  /** Each token with its trailing slashes removed. */
  function TrimSlashes(ws: seq<string>): (r: seq<string>)
    ensures |r| == |ws|
    ensures forall i :: 0 <= i < |ws| ==> r[i] == RStripChar(ws[i], '/')
  {
    seq(|ws|, i requires 0 <= i < |ws| => RStripChar(ws[i], '/'))
  }

  /**
   * The allowed-origin normalisation: tokens without trailing slashes, first
   * occurrences only, joined with ", ". Read back, it holds exactly those
   * tokens when no token is made of slashes alone.
   */
  function CorsOrigins(s: string): (r: string)
    ensures NoBareSlashToken(s) ==> CorsTokens(r) == Dedup(TrimSlashes(CorsTokens(s)))
    ensures NoBareSlashToken(s) ==> r == Join(CorsTokens(r), ", ")
  {
    var ws := Dedup(TrimSlashes(CorsTokens(s)));
    assert NoBareSlashToken(s) ==> CorsTokens(Join(ws, ", ")) == ws by {
      if NoBareSlashToken(s) {
        TrimmedTokens(s);
        CorsReadBack(ws);
      }
    }
    Join(ws, ", ")
  }

  /** Reading back a joined CORS list gives its tokens, when they are words without commas. */
  lemma CorsReadBack(ws: seq<string>)
    requires forall w :: w in ws ==> IsWord(w) && ',' !in w
    ensures Strip(Replace(Join(ws, ", "), ',', ' ')) == Join(ws, "  ")
    ensures CorsTokens(Join(ws, ", ")) == ws
  {
    var j := Join(ws, "  ");
    assert Replace(Join(ws, ", "), ',', ' ') == j by {
      ReplaceInJoin(ws, ", ", ',', ' ');
      assert Replace(", ", ',', ' ') == "  ";
    }
    assert Strip(j) == j by {
      JoinEnds(ws, "  ");
      StripNoOp(j);
    }
    assert Words(j) == ws by {
      WordsOfJoin(ws, "  ");
    }
  }

  /** Normalising an allowed-headers value a second time changes nothing. */
  lemma CorsHeadersIdempotent(s: string)
    ensures CorsHeaders(CorsHeaders(s)) == CorsHeaders(s)
  {
    var ws := Dedup(CorsTokens(s));
    CorsReadBack(ws);
    DedupOfNoDup(ws);
  }

  /** The text the allowed-methods normalisation splits has no commas and no lower-case letters. */
  lemma MethodText(s: string)
    ensures forall c :: c in Upper(Strip(Replace(s, ',', ' '))) ==> c != ',' && UpperChar(c) == c
  {
    var r := Strip(Replace(s, ',', ' '));
    assert forall c :: c in r ==> c != ',';
    var t := Upper(r);
    forall c | c in t ensures c != ',' && UpperChar(c) == c {
      var i :| 0 <= i < |t| && t[i] == c;
      assert r[i] in r;
    }
  }

  /** The tokens of the allowed-methods normalisation are words without commas or lower-case letters. */
  lemma MethodTokens(s: string)
    ensures forall w :: w in Words(Upper(Strip(Replace(s, ',', ' ')))) ==> IsWord(w) && ',' !in w && Upper(w) == w
  {
    var t := Upper(Strip(Replace(s, ',', ' ')));
    MethodText(s);
    forall w | w in Words(t) ensures IsWord(w) && ',' !in w && Upper(w) == w {
      UpperFixed(w);
    }
  }

  /** Re-reading a joined list of upper-case method tokens gives the tokens back. */
  lemma MethodsReadBack(ws: seq<string>)
    requires forall w :: w in ws ==> IsWord(w) && ',' !in w && Upper(w) == w
    ensures Words(Upper(Strip(Replace(Join(ws, ", "), ',', ' ')))) == ws
  {
    var j := Join(ws, "  ");
    CorsReadBack(ws);
    assert Upper(j) == j by {
      assert Upper("  ") == "  ";
      UpperOfJoin(ws, "  ");
    }
    WordsOfJoin(ws, "  ");
  }

  /** Normalising an allowed-methods value a second time changes nothing. */
  lemma CorsMethodsIdempotent(s: string)
    ensures CorsMethods(CorsMethods(s)) == CorsMethods(s)
  {
    var ws := Dedup(Words(Upper(Strip(Replace(s, ',', ' ')))));
    MethodTokens(s);
    MethodsReadBack(ws);
    DedupOfNoDup(ws);
  }

  /** Origins whose tokens are not made of slashes alone keep a non-empty token each. */
  predicate NoBareSlashToken(s: string) {
    forall w :: w in CorsTokens(s) ==> RStripChar(w, '/') != []
  }

  /** Trimmed origin tokens stay words without commas, and trimming them again changes nothing. */
  lemma TrimmedTokens(s: string)
    requires NoBareSlashToken(s)
    ensures forall w :: w in TrimSlashes(CorsTokens(s)) ==> IsWord(w) && ',' !in w && RStripChar(w, '/') == w
  {
    var ts := TrimSlashes(CorsTokens(s));
    forall w | w in ts ensures IsWord(w) && ',' !in w && RStripChar(w, '/') == w {
      var i :| 0 <= i < |ts| && ts[i] == w;
      var u := CorsTokens(s)[i];
      assert u in CorsTokens(s);
      assert forall c :: c in w ==> c in u;
    }
  }

  /**
   * Normalising an allowed-origin value a second time changes nothing, as
   * long as no token is made of slashes alone (such a token is stored as an
   * empty entry, which the next split drops).
   */
  lemma CorsOriginsIdempotent(s: string)
    requires NoBareSlashToken(s)
    ensures CorsOrigins(CorsOrigins(s)) == CorsOrigins(s)
  {
    TrimmedTokens(s);
    var ws := Dedup(TrimSlashes(CorsTokens(s)));
    CorsReadBack(ws);
    assert TrimSlashes(ws) == ws;
    DedupOfNoDup(ws);
  }

  // ---- collection creation policy --------------------------------------------

  /** ObjectId(v) of an id that loaded: a string becomes the ObjectId it names; other ids are kept. */
  function AsObjectId(v: Value): (r: Value)
    ensures v.Str? ==> r == ObjectId(v.s)
    ensures !v.Str? ==> r == v
  {
    match v
    case Str(s) => ObjectId(s)
    case _ => v
  }

  /** The position of the first id that does not load, or |ids| when every id loads. */
  function FirstMissing(ids: seq<Value>, loads: Value -> bool): (k: nat)
    ensures k <= |ids|
    ensures forall i :: 0 <= i < k ==> loads(ids[i])
    ensures k < |ids| ==> !loads(ids[k])
  {
    if ids == [] || !loads(ids[0]) then 0 else 1 + FirstMissing(ids[1..], loads)
  }

  /** Every id of the list converted by AsObjectId. */
  function ConvertIds(ids: seq<Value>): (r: seq<Value>)
    ensures |r| == |ids| && forall i :: 0 <= i < |ids| ==> r[i] == AsObjectId(ids[i])
  {
    seq(|ids|, i requires 0 <= i < |ids| => AsObjectId(ids[i]))
  }

  /**
   * The list the enumerate loop leaves behind, and the error it stops on: the
   * ids before the first one that fails to load are rewritten to ObjectIds,
   * the rest are untouched; the load of the failing one raises.
   */
  function LoadedIds(ids: seq<Value>, loads: Value -> bool, model: string): (r: (seq<Value>, Option<Error>))
    ensures |r.0| == |ids|
    ensures r.1.None? <==> forall i :: 0 <= i < |ids| ==> loads(ids[i])
    ensures r.1.None? ==> r.0 == ConvertIds(ids)
    ensures r.1.Some? ==> r.1 == Some(NotFound(model, ids[FirstMissing(ids, loads)]))
  {
    var k := FirstMissing(ids, loads);
    ghost var c := ConvertIds(ids);
    var out := seq(|ids|, i requires 0 <= i < |ids| => if i < k then AsObjectId(ids[i]) else ids[i]);
    assert k == |ids| ==> out == c;
    (out, if k < |ids| then Some(NotFound(model, ids[k])) else None)
  }

  /** The loop over one id list of the policy: load each id, then replace it by its ObjectId. */
  method LoadIds(ids: seq<Value>, loads: Value -> bool, model: string) returns (out: seq<Value>, err: Option<Error>)
    ensures (out, err) == LoadedIds(ids, loads, model)
  {
    out := ids;
    err := None;
    var i := 0;
    while i < |out|
      invariant 0 <= i <= |ids| && |out| == |ids|
      invariant forall j :: 0 <= j < i ==> loads(ids[j]) && out[j] == AsObjectId(ids[j])
      invariant out[i..] == ids[i..]
    {
      if !loads(out[i]) {
        err := Some(NotFound(model, out[i]));
        assert FirstMissing(ids, loads) == i by {
          assert out[i] == out[i..][0] == ids[i];
        }
        assert forall j :: i <= j < |ids| ==> out[j] == out[i..][j - i] == ids[j];
        assert out == LoadedIds(ids, loads, model).0;
        return;
      }
      assert out[i] == ids[i] by { assert out[i..][0] == ids[i..][0]; }
      out := out[i := AsObjectId(out[i])];
      i := i + 1;
    }
    assert FirstMissing(ids, loads) == |ids|;
    assert out == ConvertIds(ids);
  }

  /** Whether an id-list field of the policy is absent, or a list whose ids all load. */
  predicate IdsLoad(fields: map<string, Value>, name: string, loads: Value -> bool) {
    name !in fields || (fields[name].List? && forall x :: x in fields[name].items ==> loads(x))
  }

  /** One id-list field processed: its ids loaded and converted, the fields updated, and the error if any. */
  function PolicyIds(fields: map<string, Value>, name: string, loads: Value -> bool, model: string): (r: (map<string, Value>, Option<Error>))
    ensures r.1.None? <==> IdsLoad(fields, name, loads)
    ensures r.0.Keys == fields.Keys
    ensures forall k :: k in fields && k != name ==> r.0[k] == fields[k]
    ensures r.1.None? && name in fields ==> r.0[name] == List(ConvertIds(fields[name].items))
    ensures name in fields && !fields[name].List? ==> r.1 == Some(NotAListError)
    ensures name in fields && fields[name].List? && r.1.Some? ==>
      r.1 == Some(NotFound(model, fields[name].items[FirstMissing(fields[name].items, loads)]))
  {
    if name !in fields then (fields, None)
    else if !fields[name].List? then (fields, Some(NotAListError))
    else
      var ids := fields[name].items;
      var r := LoadedIds(ids, loads, model);
      assert (forall i :: 0 <= i < |ids| ==> loads(ids[i])) <==> (forall x :: x in ids ==> loads(x));
      (fields[name := List(r.0)], r.1)
  }

  /**
   * The collection creation policy: an object whose `groups` and `users`
   * ids must all load (they are rewritten to ObjectIds) and whose `open`
   * flag defaults to false.
   */
  function CollectionCreatePolicy(v: Value, env: Collaborators): (o: Outcome)
    ensures !v.Obj? ==> o == Outcome(v, Some(ValidationError(PolicyObjectMessage, None)))
    ensures o.error.None? <==> v.Obj? && IdsLoad(v.fields, "groups", env.groupLoads) && IdsLoad(v.fields, "users", env.userLoads)
    ensures o.error.None? ==> o.value.Obj? && o.value.fields.Keys == v.fields.Keys + {"open"}
    ensures o.error.None? ==> o.value.fields["open"] == if "open" in v.fields then v.fields["open"] else Bool(false)
    ensures o.error.None? ==> forall k :: k in v.fields && k !in {"groups", "users", "open"} ==> o.value.fields[k] == v.fields[k]
    ensures o.error.None? && "groups" in v.fields ==> o.value.fields["groups"] == List(ConvertIds(v.fields["groups"].items))
    ensures o.error.None? && "users" in v.fields ==> o.value.fields["users"] == List(ConvertIds(v.fields["users"].items))
    ensures v.Obj? && "groups" in v.fields && !v.fields["groups"].List? ==> o.error == Some(NotAListError)
    ensures v.Obj? && "groups" in v.fields && v.fields["groups"].List? && !IdsLoad(v.fields, "groups", env.groupLoads) ==>
      var ids := v.fields["groups"].items;
      o.error == Some(NotFound("group", ids[FirstMissing(ids, env.groupLoads)]))
    ensures v.Obj? && IdsLoad(v.fields, "groups", env.groupLoads) && "users" in v.fields && !v.fields["users"].List? ==>
      o.error == Some(NotAListError)
    ensures v.Obj? && IdsLoad(v.fields, "groups", env.groupLoads) && !IdsLoad(v.fields, "users", env.userLoads) &&
            "users" in v.fields && v.fields["users"].List? ==>
      var ids := v.fields["users"].items;
      o.error == Some(NotFound("user", ids[FirstMissing(ids, env.userLoads)]))
  {
    if !v.Obj? then Outcome(v, Some(ValidationError(PolicyObjectMessage, None)))
    else
      var (f1, e1) := PolicyIds(v.fields, "groups", env.groupLoads, "group");
      if e1.Some? then Outcome(Obj(f1), e1)
      else
        var (f2, e2) := PolicyIds(f1, "users", env.userLoads, "user");
        assert IdsLoad(f1, "users", env.userLoads) == IdsLoad(v.fields, "users", env.userLoads);
        if e2.Some? then Outcome(Obj(f2), e2)
        else Outcome(Obj(f2["open" := if "open" in f2 then f2["open"] else Bool(false)]), None)
  }

  // ---- dispatch ---------------------------------------------------------------

  /** What the given validator does with a value. */
  function Run(validator: Validator, v: Value, env: Collaborators): (r: Outcome)
    ensures validator.Plugin? ==> r == validator.run(v)
    ensures validator.CoreSmtpUsername? || validator.CoreSmtpPassword? ==> r == Outcome(v, None)
    ensures !validator.Plugin? && !validator.CoreCollectionCreatePolicy? && r.error.Some? && r.error.value.ValidationError? ==>
      r.error.value.field == ValueField
  {
    match validator
    case CorePluginsEnabled => PluginsEnabled(v, env.toposortPlugins)
    case CoreAddToGroupPolicy => LowerChoice(v, AddToGroupPolicies, AddToGroupPolicyMessage)
    case CoreCollectionCreatePolicy => CollectionCreatePolicy(v, env)
    case CoreCookieLifetime => IntAtLeast(v, 1, CookieLifetimeMessage)
    case CoreCorsAllowMethods => StringOnly(v, CorsMethods, CorsMethodsMessage)
    case CoreCorsAllowHeaders => StringOnly(v, CorsHeaders, CorsHeadersMessage)
    case CoreCorsAllowOrigin => StringOnly(v, CorsOrigins, CorsOriginMessage)
    case CoreEmailFromAddress => Check(v, Truthy(v), EmailFromAddressMessage)
    case CoreEmailHost => StringOnly(v, Strip, EmailHostMessage)
    case CoreRegistrationPolicy => LowerChoice(v, RegistrationPolicies, RegistrationPolicyMessage)
    case CoreEmailVerification => LowerChoice(v, EmailVerificationModes, EmailVerificationMessage)
    case CoreSmtpHost => Check(v, Truthy(v), SmtpHostMessage)
    case CoreSmtpPort => IntAtLeast(v, 1, SmtpPortMessage)
    case CoreSmtpEncryption => ExactChoice(v, SmtpEncryptions, SmtpEncryptionMessage)
    case CoreSmtpUsername => Outcome(v, None)
    case CoreSmtpPassword => Outcome(v, None)
    case CoreUploadMinimumChunkSize => IntAtLeast(v, 0, UploadChunkSizeMessage)
    case CoreUserDefaultFolders => ExactChoice(v, UserDefaultFolderModes, UserDefaultFoldersMessage)
    case Plugin(run) => run(v)
  }

  /** The validators whose accepted values are accepted again, unchanged, on a second run. */
  predicate StableOnRevalidation(validator: Validator, v: Value) {
    && !validator.Plugin?
    && validator != CorePluginsEnabled
    && validator != CoreCollectionCreatePolicy
    && (validator == CoreCorsAllowOrigin && v.Str? ==> NoBareSlashToken(v.s))
  }

  /**
   * A value a built-in validator accepted is a fixed point of it: storing a
   * setting and saving what was read back stores the same value.
   */
  lemma RevalidateAccepted(validator: Validator, v: Value, env: Collaborators)
    requires StableOnRevalidation(validator, v)
    requires Run(validator, v, env).error.None?
    ensures Run(validator, Run(validator, v, env).value, env) == Outcome(Run(validator, v, env).value, None)
  {
    match validator
    case CoreAddToGroupPolicy => assert Lower(Lower(v.s)) == Lower(v.s);
    case CoreRegistrationPolicy => assert Lower(Lower(v.s)) == Lower(v.s);
    case CoreEmailVerification => assert Lower(Lower(v.s)) == Lower(v.s);
    case CoreCorsAllowMethods => CorsMethodsIdempotent(v.s);
    case CoreCorsAllowHeaders => CorsHeadersIdempotent(v.s);
    case CoreCorsAllowOrigin => CorsOriginsIdempotent(v.s);
    case CoreEmailHost => StripIdempotent(v.s);
    case _ =>
  }

  // ---- the validators, in place ------------------------------------------------

  method ValidateCorePluginsEnabled(doc: SettingDoc, env: Collaborators) returns (err: Option<Error>)
    modifies doc`value
    ensures Outcome(doc.value, err) == PluginsEnabled(old(doc.value), env.toposortPlugins)
  {
    if !doc.value.List? {
      return Some(ValidationError(PluginsEnabledMessage, ValueField));
    }
    doc.value := List(env.toposortPlugins(doc.value.items));
    return None;
  }

  method ValidateCoreAddToGroupPolicy(doc: SettingDoc) returns (err: Option<Error>)
    modifies doc`value
    ensures Outcome(doc.value, err) == LowerChoice(old(doc.value), AddToGroupPolicies, AddToGroupPolicyMessage)
  {
    if !doc.value.Str? {
      return Some(NoLowerError);
    }
    doc.value := Str(Lower(doc.value.s));
    if doc.value.s !in AddToGroupPolicies {
      return Some(ValidationError(AddToGroupPolicyMessage, ValueField));
    }
    return None;
  }

  method ValidateCoreCollectionCreatePolicy(doc: SettingDoc, env: Collaborators) returns (err: Option<Error>)
    modifies doc`value
    ensures Outcome(doc.value, err) == CollectionCreatePolicy(old(doc.value), env)
  {
    if !doc.value.Obj? {
      return Some(ValidationError(PolicyObjectMessage, None));
    }
    var fields := doc.value.fields;
    if "groups" in fields {
      if !fields["groups"].List? {
        return Some(NotAListError);
      }
      var ids;
      ids, err := LoadIds(fields["groups"].items, env.groupLoads, "group");
      fields := fields["groups" := List(ids)];
      doc.value := Obj(fields);
      if err.Some? {
        return;
      }
    }
    if "users" in fields {
      if !fields["users"].List? {
        return Some(NotAListError);
      }
      var ids;
      ids, err := LoadIds(fields["users"].items, env.userLoads, "user");
      fields := fields["users" := List(ids)];
      doc.value := Obj(fields);
      if err.Some? {
        return;
      }
    }
    fields := fields["open" := if "open" in fields then fields["open"] else Bool(false)];
    doc.value := Obj(fields);
    return None;
  }

  method ValidateCoreCookieLifetime(doc: SettingDoc) returns (err: Option<Error>)
    modifies doc`value
    ensures Outcome(doc.value, err) == IntAtLeast(old(doc.value), 1, CookieLifetimeMessage)
  {
    var n := IntOf(doc.value);
    if n.TypeErr? {
      return Some(IntArgumentError);
    }
    if n.Converted? {
      doc.value := Int(n.n);
      if n.n > 0 {
        return None;
      }
    }
    return Some(ValidationError(CookieLifetimeMessage, ValueField));
  }

  method ValidateCoreCorsAllowMethods(doc: SettingDoc) returns (err: Option<Error>)
    modifies doc`value
    ensures Outcome(doc.value, err) == StringOnly(old(doc.value), CorsMethods, CorsMethodsMessage)
  {
    if doc.value.Str? {
      var methods := Words(Upper(Strip(Replace(doc.value.s, ',', ' '))));
      methods := Dedup(methods);
      doc.value := Str(Join(methods, ", "));
      return None;
    }
    return Some(ValidationError(CorsMethodsMessage, ValueField));
  }

  method ValidateCoreCorsAllowHeaders(doc: SettingDoc) returns (err: Option<Error>)
    modifies doc`value
    ensures Outcome(doc.value, err) == StringOnly(old(doc.value), CorsHeaders, CorsHeadersMessage)
  {
    if doc.value.Str? {
      var headers := Words(Strip(Replace(doc.value.s, ',', ' ')));
      headers := Dedup(headers);
      doc.value := Str(Join(headers, ", "));
      return None;
    }
    return Some(ValidationError(CorsHeadersMessage, ValueField));
  }

  method ValidateCoreCorsAllowOrigin(doc: SettingDoc) returns (err: Option<Error>)
    modifies doc`value
    ensures Outcome(doc.value, err) == StringOnly(old(doc.value), CorsOrigins, CorsOriginMessage)
  {
    if doc.value.Str? {
      var origins := Words(Strip(Replace(doc.value.s, ',', ' ')));
      origins := TrimSlashes(origins);
      origins := Dedup(origins);
      doc.value := Str(Join(origins, ", "));
      return None;
    }
    return Some(ValidationError(CorsOriginMessage, ValueField));
  }

  method ValidateCoreEmailFromAddress(doc: SettingDoc) returns (err: Option<Error>)
    modifies doc`value
    ensures Outcome(doc.value, err) == Check(old(doc.value), Truthy(old(doc.value)), EmailFromAddressMessage)
  {
    if !Truthy(doc.value) {
      return Some(ValidationError(EmailFromAddressMessage, ValueField));
    }
    return None;
  }

  method ValidateCoreEmailHost(doc: SettingDoc) returns (err: Option<Error>)
    modifies doc`value
    ensures Outcome(doc.value, err) == StringOnly(old(doc.value), Strip, EmailHostMessage)
  {
    if doc.value.Str? {
      doc.value := Str(Strip(doc.value.s));
      return None;
    }
    return Some(ValidationError(EmailHostMessage, ValueField));
  }

  method ValidateCoreRegistrationPolicy(doc: SettingDoc) returns (err: Option<Error>)
    modifies doc`value
    ensures Outcome(doc.value, err) == LowerChoice(old(doc.value), RegistrationPolicies, RegistrationPolicyMessage)
  {
    if !doc.value.Str? {
      return Some(NoLowerError);
    }
    doc.value := Str(Lower(doc.value.s));
    if doc.value.s !in RegistrationPolicies {
      return Some(ValidationError(RegistrationPolicyMessage, ValueField));
    }
    return None;
  }

  method ValidateCoreEmailVerification(doc: SettingDoc) returns (err: Option<Error>)
    modifies doc`value
    ensures Outcome(doc.value, err) == LowerChoice(old(doc.value), EmailVerificationModes, EmailVerificationMessage)
  {
    if !doc.value.Str? {
      return Some(NoLowerError);
    }
    doc.value := Str(Lower(doc.value.s));
    if doc.value.s !in EmailVerificationModes {
      return Some(ValidationError(EmailVerificationMessage, ValueField));
    }
    return None;
  }

  method ValidateCoreSmtpHost(doc: SettingDoc) returns (err: Option<Error>)
    modifies doc`value
    ensures Outcome(doc.value, err) == Check(old(doc.value), Truthy(old(doc.value)), SmtpHostMessage)
  {
    if !Truthy(doc.value) {
      return Some(ValidationError(SmtpHostMessage, ValueField));
    }
    return None;
  }

  method ValidateCoreSmtpPort(doc: SettingDoc) returns (err: Option<Error>)
    modifies doc`value
    ensures Outcome(doc.value, err) == IntAtLeast(old(doc.value), 1, SmtpPortMessage)
  {
    var n := IntOf(doc.value);
    if n.TypeErr? {
      return Some(IntArgumentError);
    }
    if n.Converted? {
      doc.value := Int(n.n);
      if n.n > 0 {
        return None;
      }
    }
    return Some(ValidationError(SmtpPortMessage, ValueField));
  }

  method ValidateCoreSmtpEncryption(doc: SettingDoc) returns (err: Option<Error>)
    modifies doc`value
    ensures Outcome(doc.value, err) == ExactChoice(old(doc.value), SmtpEncryptions, SmtpEncryptionMessage)
  {
    if !(doc.value.Str? && doc.value.s in SmtpEncryptions) {
      return Some(ValidationError(SmtpEncryptionMessage, ValueField));
    }
    return None;
  }

  method ValidateCoreUploadMinimumChunkSize(doc: SettingDoc) returns (err: Option<Error>)
    modifies doc`value
    ensures Outcome(doc.value, err) == IntAtLeast(old(doc.value), 0, UploadChunkSizeMessage)
  {
    var n := IntOf(doc.value);
    if n.TypeErr? {
      return Some(IntArgumentError);
    }
    if n.Converted? {
      doc.value := Int(n.n);
      if n.n >= 0 {
        return None;
      }
    }
    return Some(ValidationError(UploadChunkSizeMessage, ValueField));
  }

  method ValidateCoreUserDefaultFolders(doc: SettingDoc) returns (err: Option<Error>)
    modifies doc`value
    ensures Outcome(doc.value, err) == ExactChoice(old(doc.value), UserDefaultFolderModes, UserDefaultFoldersMessage)
  {
    if !(doc.value.Str? && doc.value.s in UserDefaultFolderModes) {
      return Some(ValidationError(UserDefaultFoldersMessage, ValueField));
    }
    return None;
  }
}
