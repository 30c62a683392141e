/** Sign-in providers configured at run time: save, reload, roll back (internal/server/authconfig.go,
    internal/server/admin_auth.go, internal/store/settings.go). A handler holds one lock for its whole run, so it
    is one step; what databases and networks answer comes in as parameters. */
module AuthConfig {
  import opened Common
  import opened SecretBox

  datatype Key =
    | GhId | GhSecret | GhOrg
    | OidcIssuer | OidcId | OidcSecret | OidcName | OidcDomain
    | OtherKey(name: string)

  type Settings = map<Key, string>

  datatype Config = Config(baseURL: string, ghId: string, ghSecret: string, ghOrg: string,
                           oidcIssuer: string, oidcId: string, oidcSecret: string, oidcName: string, oidcDomain: string)

  datatype Source = FromEnv | FromDb | NotSet

  datatype GhProvider = GhProvider(id: string, secret: string, org: string)
  datatype OidcProvider = OidcProvider(issuer: string, id: string, secret: string, name: string, domain: string)

  datatype Error = NoSecretKey | SealFailed | WriteFailed | ConfigUnreadable | BaseURLRequired | IssuerRefused
                 | DiscoveryFailed | ManagedByEnv | FieldMissing

  /** What the outside answers during one reload: the settings whose read fails, and what the network says. */
  datatype Replies = Replies(unread: set<Key>, issuerAllowed: bool, discovered: bool)

  /** What the database and the network will answer during one handler run, in the order they are asked: the settings
      whose read fails when the sources are checked, whether the read that looks for a stored secret fails, the
      settings whose read fails when the old values are recorded, the nonce drawn, and then the batch, the reload, the
      rollback and the second reload. */
  datatype World = World(opening: set<Key>, checkFails: bool, snapshot: set<Key>, nonce: Option<string>,
                         writes: bool, first: Replies, rollbackWrites: bool, second: Replies)

  function KeyText(k: Key): string {
    match k
    case GhId => "auth.github.client_id"
    case GhSecret => "auth.github.client_secret"
    case GhOrg => "auth.github.allowed_org"
    case OidcIssuer => "auth.oidc.issuer"
    case OidcId => "auth.oidc.client_id"
    case OidcSecret => "auth.oidc.client_secret"
    case OidcName => "auth.oidc.name"
    case OidcDomain => "auth.oidc.allowed_domain"
    case OtherKey(name) => name
  }

  function SettingAad(k: Key): string {
    "setting:" + KeyText(k)
  }

  // ---------------------------------------------------------------- settings

  /** An unset setting reads as the empty text. */
  function GetSetting(s: Settings, k: Key): string {
    Get(s, k).GetOr("")
  }

  function GetSecretSetting(s: Settings, enc: Option<Box>, k: Key): Result<string> {
    if GetSetting(s, k) == "" then Ok("")
    else if enc == None then Err
    else DecryptStrict(enc, GetSetting(s, k), SettingAad(k))
  }

  /** The table after a batch: non-empty values are written, empty ones delete their key. */
  function Written(s: Settings, kv: Settings): Settings {
    map k | k in s.Keys + kv.Keys && (k in kv ==> kv[k] != "") :: if k in kv then kv[k] else s[k]
  }

  lemma WrittenReads(s: Settings, kv: Settings)
    ensures forall k :: GetSetting(Written(s, kv), k) == if k in kv then kv[k] else GetSetting(s, k)
  {
  }

  /** What a written value reads back as: nothing, if it is empty. */
  function NonEmpty(v: string): Option<string> {
    if v == "" then None else Some(v)
  }

  lemma WrittenByLookup(s: Settings, kv: Settings, tx: Settings)
    requires forall k :: Get(tx, k) == if k in kv then NonEmpty(kv[k]) else Get(s, k)
    ensures tx == Written(s, kv)
  {
  }

  /** What is recorded of some keys before a batch: a read that fails leaves the empty text. */
  function Recorded(s: Settings, keys: set<Key>, unread: set<Key>): Settings {
    map k | k in keys :: if k in unread then "" else GetSetting(s, k)
  }

  /** Writing back what was recorded undoes a batch, except that a stored value whose read failed is deleted. */
  lemma WritingBackLeaves(s: Settings, kv: Settings, keys: set<Key>, unread: set<Key>)
    requires NoEmptyValues(s) && kv.Keys <= keys
    ensures Written(Written(s, kv), Recorded(s, keys, unread)) == s - (unread * keys)
  {
  }

  /** So a rollback restores the settings if and only if no read that failed had a stored value. */
  lemma RollbackRestoresIff(s: Settings, kv: Settings, keys: set<Key>, unread: set<Key>)
    requires NoEmptyValues(s) && kv.Keys <= keys
    ensures Written(Written(s, kv), Recorded(s, keys, unread)) == s <==>
            forall k :: k in unread && k in keys ==> k !in s
  {
    WritingBackLeaves(s, kv, keys, unread);
    var lost := s - (unread * keys);
    if k :| k in unread && k in keys && k in s {
      assert k !in lost;
    } else {
      assert lost == s;
    }
  }

  ghost predicate NoEmptyValues(s: Settings) {
    forall k :: k in s ==> s[k] != ""
  }

  // ---------------------------------------------------------------- the effective configuration

  /** Environment values win; a provider the environment leaves out is filled from the settings, if it has its
      identifying field there. Nothing, if a secret that is needed cannot be opened. */
  function Effective(env: Config, s: Settings, enc: Option<Box>): Option<(Config, Source, Source)> {
    var ghSec := if env.ghId == "" && GetSetting(s, GhId) != "" then GetSecretSetting(s, enc, GhSecret) else Ok("");
    var oidcSec := if env.oidcIssuer == "" && GetSetting(s, OidcIssuer) != "" then GetSecretSetting(s, enc, OidcSecret)
                   else Ok("");
    if ghSec.Err? || oidcSec.Err? then None
    else
      var (cfg1, gh) :=
        if env.ghId != "" then (env, FromEnv)
        else if GetSetting(s, GhId) == "" then (env, NotSet)
        else (env.(ghId := GetSetting(s, GhId), ghSecret := ghSec.value, ghOrg := GetSetting(s, GhOrg)), FromDb);
      var (cfg2, oidc) :=
        if env.oidcIssuer != "" then (cfg1, FromEnv)
        else if GetSetting(s, OidcIssuer) == "" then (cfg1, NotSet)
        else (cfg1.(oidcIssuer := GetSetting(s, OidcIssuer), oidcId := GetSetting(s, OidcId),
                    oidcSecret := oidcSec.value, oidcName := GetSetting(s, OidcName),
                    oidcDomain := GetSetting(s, OidcDomain)), FromDb);
      Some((cfg2, gh, oidc))
  }

  /** Where the two providers come from: the environment if it names them, else the settings if these do. */
  lemma SourcesMean(env: Config, s: Settings, enc: Option<Box>)
    requires Effective(env, s, enc).Some?
    ensures var (_, gh, oidc) := Effective(env, s, enc).value;
            && gh == (if env.ghId != "" then FromEnv else if GetSetting(s, GhId) != "" then FromDb else NotSet)
            && oidc == (if env.oidcIssuer != "" then FromEnv
                        else if GetSetting(s, OidcIssuer) != "" then FromDb else NotSet)
  {
  }

  function BuildGh(cfg: Config): Option<GhProvider> {
    if cfg.ghId == "" || cfg.ghSecret == "" then None else Some(GhProvider(cfg.ghId, cfg.ghSecret, cfg.ghOrg))
  }

  function BuildOidc(cfg: Config): Option<OidcProvider> {
    if cfg.oidcIssuer == "" || cfg.oidcId == "" || cfg.oidcSecret == "" then None
    else Some(OidcProvider(cfg.oidcIssuer, cfg.oidcId, cfg.oidcSecret,
                           if cfg.oidcName == "" then "SSO" else cfg.oidcName, cfg.oidcDomain))
  }

  datatype Provider = GitHub | Oidc

  function KeysOf(p: Provider): set<Key> {
    match p
    case GitHub => {GhId, GhSecret, GhOrg}
    case Oidc => {OidcIssuer, OidcId, OidcSecret, OidcName, OidcDomain}
  }

  function SecretKeyOf(p: Provider): Key {
    match p
    case GitHub => GhSecret
    case Oidc => OidcSecret
  }

  function EnvManaged(env: Config, p: Provider): bool {
    match p
    case GitHub => env.ghId != ""
    case Oidc => env.oidcIssuer != ""
  }

  /** The configuration of one provider looks only at that provider's settings. */
  lemma ProvidersAreSeparate(env: Config, s: Settings, t: Settings, enc: Option<Box>, p: Provider)
    requires forall k :: k in KeysOf(p) ==> GetSetting(s, k) == GetSetting(t, k)
    requires Effective(env, s, enc).Some? && Effective(env, t, enc).Some?
    ensures p == GitHub ==> BuildGh(Effective(env, s, enc).value.0) == BuildGh(Effective(env, t, enc).value.0)
    ensures p == Oidc ==> BuildOidc(Effective(env, s, enc).value.0) == BuildOidc(Effective(env, t, enc).value.0)
  {
  }

  function IdKeyOf(p: Provider): Key {
    match p
    case GitHub => GhId
    case Oidc => OidcIssuer
  }

  function Other(p: Provider): Provider {
    if p == GitHub then Oidc else GitHub
  }

  /** A provider that is configured in the settings with a secret that cannot be opened. */
  predicate Broken(env: Config, s: Settings, enc: Option<Box>, p: Provider) {
    var id, secret := GetSetting(s, IdKeyOf(p)), GetSetting(s, SecretKeyOf(p));
    && !EnvManaged(env, p) && id != "" && secret != ""
    && (enc == None || DecryptStrict(enc, secret, SettingAad(SecretKeyOf(p))).Err?)
  }

  lemma ReadableIff(env: Config, s: Settings, enc: Option<Box>)
    ensures Effective(env, s, enc).Some? <==> !Broken(env, s, enc, GitHub) && !Broken(env, s, enc, Oidc)
  {
  }

  /** Changing the settings of one provider neither breaks nor mends the other. */
  lemma BrokenIsLocal(env: Config, s: Settings, enc: Option<Box>, p: Provider, kv: Settings)
    requires kv.Keys <= KeysOf(p)
    ensures Broken(env, Written(s, kv), enc, Other(p)) <==> Broken(env, s, enc, Other(p))
  {
    WrittenReads(s, kv);
    assert KeysOf(p) !! KeysOf(Other(p));
    assert IdKeyOf(Other(p)) in KeysOf(Other(p)) && SecretKeyOf(Other(p)) in KeysOf(Other(p));
  }

  /** One provider can block the other after all, and exactly then: no change to the settings of `p` leaves a
      readable configuration if and only if the other provider is configured with a secret that cannot be opened. */
  lemma OneProviderBlocksTheOtherIff(env: Config, s: Settings, enc: Option<Box>, p: Provider)
    ensures (forall kv: Settings :: kv.Keys <= KeysOf(p) ==> Effective(env, Written(s, kv), enc) == None) <==>
            Broken(env, s, enc, Other(p))
  {
    forall kv: Settings | kv.Keys <= KeysOf(p) && Broken(env, s, enc, Other(p))
      ensures Effective(env, Written(s, kv), enc) == None
    {
      BrokenIsLocal(env, s, enc, p, kv);
      ReadableIff(env, Written(s, kv), enc);
    }
    if !Broken(env, s, enc, Other(p)) {
      var off: Settings := map k | k in KeysOf(p) :: "";
      WrittenReads(s, off);
      assert IdKeyOf(p) in off;
      BrokenIsLocal(env, s, enc, p, off);
      ReadableIff(env, Written(s, off), enc);
      assert off.Keys <= KeysOf(p);
    }
  }

  /** While `p` itself is in order, its configuration is unreadable exactly if the other provider is broken, and
      taking the other provider's settings away would mend it. */
  lemma OnlyTheOtherBlocks(env: Config, s: Settings, enc: Option<Box>, p: Provider)
    requires !Broken(env, s, enc, p)
    ensures Effective(env, s, enc) == None <==> Broken(env, s, enc, Other(p))
    ensures Effective(env, s - KeysOf(Other(p)), enc).Some?
  {
    var t := s - KeysOf(Other(p));
    assert KeysOf(p) !! KeysOf(Other(p));
    assert IdKeyOf(p) in KeysOf(p) && SecretKeyOf(p) in KeysOf(p) && IdKeyOf(Other(p)) in KeysOf(Other(p));
    assert GetSetting(t, IdKeyOf(p)) == GetSetting(s, IdKeyOf(p));
    assert GetSetting(t, SecretKeyOf(p)) == GetSetting(s, SecretKeyOf(p));
    assert GetSetting(t, IdKeyOf(Other(p))) == "";
    ReadableIff(env, s, enc);
    ReadableIff(env, t, enc);
  }

  // ---------------------------------------------------------------- reads that fail

  /** A failed read of an identifying field or of a needed secret is an error. */
  predicate ReadAborts(env: Config, s: Settings, unread: set<Key>, p: Provider) {
    && !EnvManaged(env, p)
    && (IdKeyOf(p) in unread || (GetSetting(s, IdKeyOf(p)) != "" && SecretKeyOf(p) in unread))
  }

  predicate ReadsAbort(env: Config, s: Settings, unread: set<Key>) {
    ReadAborts(env, s, unread, GitHub) || ReadAborts(env, s, unread, Oidc)
  }

  /** What one pass over the settings makes of them when some reads fail: any other failed read is ignored, and the
      field is taken as empty. */
  function EffectiveRead(env: Config, s: Settings, enc: Option<Box>, unread: set<Key>)
    : Option<(Config, Source, Source)>
  {
    if ReadsAbort(env, s, unread) then None else Effective(env, s - unread, enc)
  }

  lemma ReadIff(env: Config, s: Settings, enc: Option<Box>, unread: set<Key>)
    ensures EffectiveRead(env, s, enc, unread).Some? <==> Effective(env, s, enc).Some? && !ReadsAbort(env, s, unread)
    ensures EffectiveRead(env, s, enc, unread) == None <==>
            exists p :: && !EnvManaged(env, p)
                        && (IdKeyOf(p) in unread
                            || (GetSetting(s, IdKeyOf(p)) != "" && SecretKeyOf(p) in unread)
                            || Broken(env, s, enc, p))
  {
    ReadableIff(env, s, enc);
  }

  function IgnoredKeysOf(p: Provider): set<Key> {
    KeysOf(p) - {IdKeyOf(p), SecretKeyOf(p)}
  }

  /** Does this value make a difference to the provider? The display name has a default. */
  predicate Tells(k: Key, v: string) {
    v != "" && !(k == OidcName && v == "SSO")
  }

  predicate Complete(env: Config, s: Settings, enc: Option<Box>, p: Provider) {
    var e := Effective(env, s, enc);
    e.Some? && if p == GitHub then BuildGh(e.value.0).Some? else BuildOidc(e.value.0).Some?
  }

  /** The provider is complete in the settings, and an ignored read that failed had a value that matters. */
  predicate Misread(env: Config, s: Settings, enc: Option<Box>, unread: set<Key>, p: Provider) {
    && !EnvManaged(env, p) && Complete(env, s, enc, p)
    && exists k :: k in IgnoredKeysOf(p) && k in unread && Tells(k, GetSetting(s, k))
  }

  datatype Form =
    | GithubSave(id: string, secret: string, org: string)
    | GithubClear
    | OidcSave(issuer: string, id: string, secret: string, name: string, domain: string)
    | OidcClear
    | Unrecognised

  function TargetOf(form: Form): Provider {
    if form.GithubSave? || form.GithubClear? then GitHub else Oidc
  }

  /** The stored settings and the two live providers. */
  datatype Live = Live(settings: Settings, gh: Option<GhProvider>, oidc: Option<OidcProvider>)

  /** The live provider `p` is the one this configuration describes. */
  predicate BuiltAs(cfg: Config, p: Provider, l: Live) {
    if p == GitHub then l.gh == BuildGh(cfg) else l.oidc == BuildOidc(cfg)
  }

  /** The live provider `p` is the one built from the effective configuration. */
  predicate BuiltFor(env: Config, enc: Option<Box>, p: Provider, l: Live) {
    var e := Effective(env, l.settings, enc);
    e.Some? && BuiltAs(e.value.0, p, l)
  }

  /** The live provider `p` is the one built from the settings as far as they could be read. */
  predicate BuiltFromRead(env: Config, enc: Option<Box>, p: Provider, l: Live, unread: set<Key>) {
    var e := EffectiveRead(env, l.settings, enc, unread);
    e.Some? && BuiltAs(e.value.0, p, l)
  }

  /** What a reload makes live is the provider of the settings if and only if no ignored read that failed had a value
      that matters. */
  lemma GoesLiveIff(env: Config, enc: Option<Box>, p: Provider, l: Live, unread: set<Key>)
    requires BuiltFromRead(env, enc, p, l, unread)
    ensures BuiltFor(env, enc, p, l) <==> !Misread(env, l.settings, enc, unread, p)
  {
    ReadIff(env, l.settings, enc, unread);
    if p == GitHub { GitHubGoesLiveIff(env, enc, l, unread); } else { OidcGoesLiveIff(env, enc, l, unread); }
  }

  lemma GitHubGoesLiveIff(env: Config, enc: Option<Box>, l: Live, unread: set<Key>)
    requires BuiltFromRead(env, enc, GitHub, l, unread) && Effective(env, l.settings, enc).Some?
    ensures BuiltFor(env, enc, GitHub, l) <==> !Misread(env, l.settings, enc, unread, GitHub)
  {
    var s := l.settings;
    assert GhOrg in IgnoredKeysOf(GitHub);
    assert GetSetting(s - unread, GhOrg) == if GhOrg in unread then "" else GetSetting(s, GhOrg);
  }

  lemma OidcGoesLiveIff(env: Config, enc: Option<Box>, l: Live, unread: set<Key>)
    requires BuiltFromRead(env, enc, Oidc, l, unread) && Effective(env, l.settings, enc).Some?
    ensures BuiltFor(env, enc, Oidc, l) <==> !Misread(env, l.settings, enc, unread, Oidc)
  {
    var s := l.settings;
    assert OidcId in IgnoredKeysOf(Oidc) && OidcName in IgnoredKeysOf(Oidc) && OidcDomain in IgnoredKeysOf(Oidc);
    assert forall k :: GetSetting(s - unread, k) == if k in unread then "" else GetSetting(s, k);
  }

  predicate BuiltFromConfig(env: Config, enc: Option<Box>, l: Live) {
    BuiltFor(env, enc, GitHub, l) && BuiltFor(env, enc, Oidc, l)
  }

  /** The other provider, and every setting that does not belong to `p`, are as they were. */
  ghost predicate OnlyTouches(p: Provider, before: Live, after: Live) {
    && (if p == GitHub then after.oidc == before.oidc else after.gh == before.gh)
    && (forall k :: k !in KeysOf(p) ==> Get(after.settings, k) == Get(before.settings, k))
  }

  /** The settings after batch `kv` was stored for provider `p`, or stored and taken back, or refused. */
  function StoredAfter(s: Settings, kv: Settings, p: Provider, w: World, err: Option<Error>): Settings {
    if !w.writes then s
    else if err == None || !w.rollbackWrites then Written(s, kv)
    else s - (w.snapshot * KeysOf(p))
  }

  /** What storing batch `kv` for provider `p` may leave behind. On success the batch is stored and the live
      provider is that of the new settings as read. On an error the batch is taken back as far as it was recorded,
      unless the rollback could not be written; and the live provider is the old one or that of the settings as read
      the second time, even when it failed to reload twice. */
  ghost predicate SavedOrRestored(env: Config, enc: Option<Box>, p: Provider, kv: Settings, w: World,
                                  before: Live, after: Live, err: Option<Error>) {
    && OnlyTouches(p, before, after)
    && (err == None ==> BuiltFromRead(env, enc, p, after, w.first.unread))
    && (err.Some? ==> (after.gh == before.gh && after.oidc == before.oidc)
                      || BuiltFromRead(env, enc, p, after, w.second.unread))
    && (after.settings == StoredAfter(before.settings, kv, p, w, err)
        || (err.Some? && after.settings == before.settings))
  }

  /** Was everything that matters to provider `p` read in the reload that came last? */
  predicate ReadWell(env: Config, s: Settings, enc: Option<Box>, p: Provider, w: World, err: Option<Error>) {
    !Misread(env, s, enc, if err == None then w.first.unread else w.second.unread, p)
  }

  /** The promise of one handler run. An error changes a setting only if a batch was written and could not be taken
      back, or if the record of the old values has a gap, and then only there. Except in these cases, and if the last
      reload read what matters: live providers that were those of the configuration still are, and an error changes
      nothing at all if the provider was in step with the configuration. Success makes the provider that of the
      settings as read, even if it was not in step before. */
  ghost predicate Handled(env: Config, enc: Option<Box>, p: Provider, w: World,
                          before: Live, after: Live, err: Option<Error>) {
    && OnlyTouches(p, before, after)
    && (err.Some? && after.settings != before.settings ==>
          w.writes && (w.rollbackWrites ==> after.settings == before.settings - (w.snapshot * KeysOf(p))))
    && (ReadWell(env, after.settings, enc, p, w, err) && (err == None || after.settings == before.settings) ==>
          && (BuiltFromConfig(env, enc, before) ==> BuiltFromConfig(env, enc, after))
          && (BuiltFor(env, enc, p, before) && err.Some? ==> after == before))
    && (err == None ==> after == before || BuiltFromRead(env, enc, p, after, w.first.unread))
  }

  lemma NothingWritten(env: Config, enc: Option<Box>, p: Provider, w: World, l: Live, err: Option<Error>)
    requires err.Some?
    ensures Handled(env, enc, p, w, l, l, err)
  {
  }

  /** Keeping one provider in step keeps both in step, because they share no setting. */
  lemma ReloadedIsConsistent(env: Config, enc: Option<Box>, p: Provider, before: Live, after: Live)
    requires BuiltFromConfig(env, enc, before) && OnlyTouches(p, before, after) && BuiltFor(env, enc, p, after)
    ensures BuiltFromConfig(env, enc, after)
  {
    var other := Other(p);
    assert KeysOf(p) !! KeysOf(other);
    forall k | k in KeysOf(other) ensures GetSetting(before.settings, k) == GetSetting(after.settings, k) {
      assert Get(after.settings, k) == Get(before.settings, k);
    }
    ProvidersAreSeparate(env, before.settings, after.settings, enc, other);
  }

  lemma SavedIsHandled(env: Config, enc: Option<Box>, p: Provider, kv: Settings, w: World,
                       before: Live, after: Live, err: Option<Error>)
    requires SavedOrRestored(env, enc, p, kv, w, before, after, err)
    ensures Handled(env, enc, p, w, before, after, err)
  {
    var unread := if err == None then w.first.unread else w.second.unread;
    if BuiltFromRead(env, enc, p, after, unread) {
      GoesLiveIff(env, enc, p, after, unread);
      if BuiltFromConfig(env, enc, before) && BuiltFor(env, enc, p, after) {
        ReloadedIsConsistent(env, enc, p, before, after);
      }
    }
  }

  lemma BatchOnlyTouches(p: Provider, kv: Settings, w: World, before: Live, after: Live, err: Option<Error>)
    requires kv.Keys <= KeysOf(p)
    requires after.settings == StoredAfter(before.settings, kv, p, w, err)
    requires if p == GitHub then after.oidc == before.oidc else after.gh == before.gh
    ensures OnlyTouches(p, before, after)
  {
  }

  /** With all keys of a provider deleted the configuration stays readable, and the provider is unset. */
  lemma ClearedIsReadable(env: Config, s: Settings, enc: Option<Box>, p: Provider)
    requires Effective(env, s, enc).Some?
    ensures var t := Written(s, map k | k in KeysOf(p) :: "");
            Effective(env, t, enc).Some? && GetSetting(t, IdKeyOf(p)) == ""
  {
  }

  lemma ClearedIsOff(env: Config, enc: Option<Box>, p: Provider, before: Live, after: Live, unread: set<Key>)
    ensures Written(before.settings, map k | k in KeysOf(p) :: "") == before.settings - KeysOf(p)
    ensures !EnvManaged(env, p) && after.settings == before.settings - KeysOf(p)
            && BuiltFromRead(env, enc, p, after, unread) ==>
            if p == GitHub then after.gh == None else after.oidc == None
  {
  }

  // ---------------------------------------------------------------- forms

  /** The plain values a save stores. */
  function ValuesOf(form: Form): Settings
    requires form.GithubSave? || form.OidcSave?
  {
    match form
    case GithubSave(id, _, org) => map[GhId := id, GhOrg := org]
    case OidcSave(issuer, id, _, name, domain) =>
      map[OidcIssuer := issuer, OidcId := id, OidcName := name, OidcDomain := domain]
  }

  /** The batch of a save whose secret is stored as it is given, or kept. */
  function PlainBatch(values: Settings, p: Provider, secret: string): Settings {
    if secret == "" then values else values[SecretKeyOf(p) := secret]
  }

  /** A field of a provider as a reload that fails to read some settings sees it. */
  function AsRead(k: Key, v: string, unread: set<Key>): string {
    if k in unread then "" else v
  }

  /** The provider a save describes, as a reload that fails to read some settings sees it. */
  function GhOf(id: string, secret: string, org: string, unread: set<Key>): Option<GhProvider> {
    if secret == "" then None else Some(GhProvider(id, secret, AsRead(GhOrg, org, unread)))
  }

  function OidcOf(form: Form, secret: string, unread: set<Key>): Option<OidcProvider>
    requires form.OidcSave?
  {
    if secret == "" || AsRead(OidcId, form.id, unread) == "" then None
    else
      var name := AsRead(OidcName, form.name, unread);
      Some(OidcProvider(form.issuer, form.id, secret, if name == "" then "SSO" else name,
                        AsRead(OidcDomain, form.domain, unread)))
  }

  lemma OidcReadsBack(form: Form, s: Settings)
    requires form.OidcSave? && forall k :: k in ValuesOf(form) ==> GetSetting(s, k) == ValuesOf(form)[k]
    ensures GetSetting(s, OidcIssuer) == form.issuer && GetSetting(s, OidcId) == form.id
    ensures GetSetting(s, OidcName) == form.name && GetSetting(s, OidcDomain) == form.domain
  {
    var values := ValuesOf(form);
    assert values[OidcIssuer] == form.issuer && values[OidcId] == form.id;
    assert values[OidcName] == form.name && values[OidcDomain] == form.domain;
  }

  /** The form that would save what is stored. */
  function StoredOidc(s: Settings): Form {
    OidcSave(GetSetting(s, OidcIssuer), GetSetting(s, OidcId), "", GetSetting(s, OidcName), GetSetting(s, OidcDomain))
  }

  /** A stored secret is bound to its setting: no two of the settings share their associated data, nor does any share
      it with a user's seed. */
  lemma SettingAadsDiffer(k: Key, l: Key, user: int)
    ensures !k.OtherKey? && !l.OtherKey? ==> (SettingAad(k) == SettingAad(l) <==> k == l)
    ensures SettingAad(k) != UserAad(user)
  {
    var prefix := "setting:";
    assert SettingAad(k)[|prefix|..] == KeyText(k) && SettingAad(l)[|prefix|..] == KeyText(l);
    assert SettingAad(k)[0] == 's' && UserAad(user)[0] == 't';
    KeyTextsDiffer(k, l);
  }

  lemma SecretAads()
    ensures SettingAad(GhSecret) == "setting:auth.github.client_secret"
    ensures SettingAad(OidcSecret) == "setting:auth.oidc.client_secret"
  {
  }

  lemma KeyTextsDiffer(k: Key, l: Key)
    ensures !k.OtherKey? && !l.OtherKey? ==> (KeyText(k) == KeyText(l) <==> k == l)
  {
    // Names of one length differ in the provider they start with.
    assert KeyText(GhId)[5] == 'g' && KeyText(GhSecret)[5] == 'g' && KeyText(GhOrg)[5] == 'g';
    assert KeyText(OidcIssuer)[5] == 'o' && KeyText(OidcId)[5] == 'o' && KeyText(OidcSecret)[5] == 'o';
    assert KeyText(OidcName)[5] == 'o' && KeyText(OidcDomain)[5] == 'o';
  }

  lemma GitHubAsSaved(env: Config, enc: Option<Box>, l: Live, unread: set<Key>)
    requires !EnvManaged(env, GitHub) && GetSetting(l.settings, GhId) != ""
    requires BuiltFromRead(env, enc, GitHub, l, unread)
    ensures var id, org := GetSetting(l.settings, GhId), GetSetting(l.settings, GhOrg);
            var sec := GetSecretSetting(l.settings, enc, GhSecret);
            sec.Ok? && l.gh == GhOf(id, sec.value, org, unread)
  {
  }

  lemma OidcAsSaved(env: Config, enc: Option<Box>, form: Form, l: Live, unread: set<Key>)
    requires !EnvManaged(env, Oidc) && form.OidcSave? && form.issuer != ""
    requires GetSetting(l.settings, OidcIssuer) == form.issuer && GetSetting(l.settings, OidcId) == form.id
    requires GetSetting(l.settings, OidcName) == form.name && GetSetting(l.settings, OidcDomain) == form.domain
    requires BuiltFromRead(env, enc, Oidc, l, unread)
    ensures var sec := GetSecretSetting(l.settings, enc, OidcSecret);
            sec.Ok? && l.oidc == OidcOf(form, sec.value, unread)
  {
  }

  // ---------------------------------------------------------------- the server

  class AuthServer {
    const env: Config
    const enc: Option<Box>
    var settings: Settings
    var gh: Option<GhProvider>
    var oidc: Option<OidcProvider>

    constructor (env: Config, enc: Option<Box>, settings: Settings)
      ensures this.env == env && this.enc == enc && this.settings == settings && gh == None && oidc == None
    {
      this.env, this.enc, this.settings, gh, oidc := env, enc, settings, None, None;
    }

    ghost predicate Consistent()
      reads this
    {
      BuiltFromConfig(env, enc, Now())
    }

    function AsSeen(unread: set<Key>): Option<(Config, Source, Source)>
      reads this
    {
      EffectiveRead(env, settings, enc, unread)
    }

    /** The configuration is readable, and a complete provider has a base URL to be redirected to. */
    predicate GitHubReloads(r: Replies)
      reads this
    {
      var e := AsSeen(r.unread);
      e.Some? && (BuildGh(e.value.0).Some? ==> env.baseURL != "")
    }

    /** The same, and a stored issuer is allowed, and a complete provider can be discovered. */
    predicate OidcReloads(r: Replies)
      reads this
    {
      var e := AsSeen(r.unread);
      && e.Some? && (e.value.2 == FromDb ==> r.issuerAllowed)
      && (BuildOidc(e.value.0).Some? ==> r.discovered && env.baseURL != "")
    }

    /** No network: fails only for an unreadable configuration or a missing base URL, and then keeps the old one. */
    method ReloadGitHub(r: Replies) returns (err: Option<Error>)
      modifies this`gh
      ensures err == None <==> GitHubReloads(r)
      ensures AsSeen(r.unread) == None ==> err == Some(ConfigUnreadable)
      ensures err != Some(FieldMissing)
      ensures gh == if err == None then BuildGh(AsSeen(r.unread).value.0) else old(gh)
      ensures err == None && env.ghId != "" ==>
        gh == if env.ghSecret == "" then None else Some(GhProvider(env.ghId, env.ghSecret, env.ghOrg))
      ensures err == None && env.ghId == "" ==>
        var id, secret := GetSetting(settings, GhId), GetSetting(settings, GhSecret);
        if id == "" || secret == "" then gh == None
        else
          var sec := DecryptStrict(enc, secret, "setting:auth.github.client_secret");
          sec.Ok? && gh == GhOf(id, sec.value, GetSetting(settings, GhOrg), r.unread)
    {
      var e := AsSeen(r.unread);
      if e == None {
        return Some(ConfigUnreadable);
      }
      var built := BuildGh(e.value.0);
      if built.Some? && env.baseURL == "" {
        return Some(BaseURLRequired);
      }
      if env.ghId == "" && GetSetting(settings, GhId) != "" {
        GitHubAsSaved(env, enc, Live(settings, built, oidc), r.unread);
        SecretAads();
      }
      gh := built;
      return None;
    }

    /** Fails exactly when the configuration is unreadable, a stored issuer is refused, or a complete provider cannot
        be discovered or has no base URL. On any failure the previous provider stays live. */
    method ReloadOIDC(r: Replies) returns (err: Option<Error>)
      modifies this`oidc
      ensures err == None <==> OidcReloads(r)
      ensures AsSeen(r.unread) == None ==> err == Some(ConfigUnreadable)
      ensures err != Some(FieldMissing)
      ensures oidc == if err == None then BuildOidc(AsSeen(r.unread).value.0) else old(oidc)
      ensures err == None && env.oidcIssuer != "" ==>
        oidc == if env.oidcId == "" || env.oidcSecret == "" then None
                else Some(OidcProvider(env.oidcIssuer, env.oidcId, env.oidcSecret,
                                       if env.oidcName == "" then "SSO" else env.oidcName, env.oidcDomain))
      ensures err == None && env.oidcIssuer == "" ==>
        var issuer, secret := GetSetting(settings, OidcIssuer), GetSetting(settings, OidcSecret);
        if issuer == "" || secret == "" then oidc == None
        else
          var sec := DecryptStrict(enc, secret, "setting:auth.oidc.client_secret");
          sec.Ok? && oidc == OidcOf(StoredOidc(settings), sec.value, r.unread)
    {
      var e := AsSeen(r.unread);
      if e == None {
        return Some(ConfigUnreadable);
      }
      var (cfg, _, source) := e.value;
      if cfg.oidcIssuer != "" && source == FromDb && !r.issuerAllowed {
        return Some(IssuerRefused);
      }
      var built := BuildOidc(cfg);
      if built.Some? && !r.discovered {
        return Some(DiscoveryFailed);
      }
      if built.Some? && env.baseURL == "" {
        return Some(BaseURLRequired);
      }
      if env.oidcIssuer == "" && GetSetting(settings, OidcIssuer) != "" {
        OidcAsSaved(env, enc, StoredOidc(settings), Live(settings, gh, built), r.unread);
        SecretAads();
      }
      oidc := built;
      return None;
    }

    method Reload(p: Provider, r: Replies) returns (err: Option<Error>)
      modifies this`gh, this`oidc
      ensures err == None ==> AsSeen(r.unread).Some? && BuiltAs(AsSeen(r.unread).value.0, p, Now())
      ensures err.Some? ==> gh == old(gh) && oidc == old(oidc)
      ensures if p == GitHub then oidc == old(oidc) else gh == old(gh)
      ensures AsSeen(r.unread) == None ==> err == Some(ConfigUnreadable)
      ensures err != Some(FieldMissing)
      ensures AsSeen(r.unread).Some? && !EnvManaged(env, p) && Unset(p) ==> err == None
    {
      if p == GitHub { err := ReloadGitHub(r); } else { err := ReloadOIDC(r); }
    }

    /** The provider's identifying field is not in the settings. */
    predicate Unset(p: Provider)
      reads this
    {
      GetSetting(settings, IdKeyOf(p)) == ""
    }

    /** Startup: both providers, or a loud failure, after which the OIDC provider is as it was. */
    method ReloadAuthProviders(r: Replies, r': Replies) returns (err: Option<Error>)
      modifies this`gh, this`oidc
      ensures err == None <==> GitHubReloads(r) && OidcReloads(r')
      ensures err == None ==>
        (Consistent() <==> !Misread(env, settings, enc, r.unread, GitHub)
                           && !Misread(env, settings, enc, r'.unread, Oidc))
      ensures gh == if GitHubReloads(r) then BuildGh(AsSeen(r.unread).value.0) else old(gh)
      ensures oidc == if err == None then BuildOidc(AsSeen(r'.unread).value.0) else old(oidc)
      ensures err == None && env.ghId != "" ==>
        gh == if env.ghSecret == "" then None else Some(GhProvider(env.ghId, env.ghSecret, env.ghOrg))
      ensures err == None && env.oidcIssuer != "" ==>
        oidc == if env.oidcId == "" || env.oidcSecret == "" then None
                else Some(OidcProvider(env.oidcIssuer, env.oidcId, env.oidcSecret,
                                       if env.oidcName == "" then "SSO" else env.oidcName, env.oidcDomain))
    {
      err := ReloadGitHub(r);
      if err == None {
        err := ReloadOIDC(r');
        if err == None {
          GoesLiveIff(env, enc, GitHub, Now(), r.unread);
          GoesLiveIff(env, enc, Oidc, Now(), r'.unread);
        }
      }
    }

    /** One transaction over a batch; `ok` says whether the database lets it commit. */
    method WriteSettings(kv: Settings, ok: bool) returns (err: Option<Error>)
      modifies this`settings
      ensures err == if ok then None else Some(WriteFailed)
      ensures settings == if ok then Written(old(settings), kv) else old(settings)
    {
      var tx := settings;
      var todo := kv.Keys;
      while todo != {}
        invariant todo <= kv.Keys
        invariant forall k :: Get(tx, k) == if k in kv && k !in todo then NonEmpty(kv[k]) else Get(settings, k)
        decreases |todo|
      {
        var k :| k in todo;
        todo := todo - {k};
        if kv[k] == "" {
          tx := tx - {k};
          continue;
        }
        tx := tx[k := kv[k]];
      }
      if !ok {
        return Some(WriteFailed);
      }
      WrittenByLookup(settings, kv, tx);
      settings := tx;
      return None;
    }

    /** The stored values of some keys, as they are (a secret stays sealed); a read that fails leaves the empty text. */
    method Snapshot(keys: set<Key>, unread: set<Key>) returns (prev: Settings)
      ensures prev == Recorded(settings, keys, unread)
    {
      prev := map[];
      var todo := keys;
      while todo != {}
        invariant todo <= keys
        invariant prev == Recorded(settings, keys - todo, unread)
        decreases |todo|
      {
        var k :| k in todo;
        todo := todo - {k};
        prev := prev[k := if k in unread then "" else GetSetting(settings, k)];
      }
    }

    method SealSecret(k: Key, plaintext: string, nonce: Option<string>) returns (sealed: string, err: Option<Error>)
      requires enc.Some? && nonce.Some? ==> GoodNonce(enc.value, nonce.value)
      ensures plaintext != "" && enc == None ==> err == Some(NoSecretKey)
      ensures err == None && plaintext != "" ==> enc.Some? && sealed != "" && HasPrefix(sealed)
      ensures err == None && plaintext != "" && !HasPrefix(plaintext) ==>
        DecryptStrict(enc, sealed, SettingAad(k)) == Ok(plaintext)
      ensures enc.Some? && HasPrefix(plaintext) ==> err == None && sealed == plaintext
      ensures err != Some(FieldMissing)
    {
      if plaintext == "" {
        return "", None;
      }
      if enc == None {
        return "", Some(NoSecretKey);
      }
      var r := Encrypt(enc, plaintext, SettingAad(k), nonce);
      if r.Err? {
        return "", Some(SealFailed);
      }
      if nonce.Some? {
        RoundTripIff(enc.value, plaintext, SettingAad(k), nonce.value);
      }
      return r.value, None;
    }

    function Now(): Live
      reads this
    {
      Live(settings, gh, oidc)
    }

    /** The batch is stored but the provider did not reload: write the recorded values back and reload again,
        ignoring both outcomes. */
    method RollBack(p: Provider, prev: Settings, w: World,
                    ghost before: Live, ghost kv: Settings, ghost err: Option<Error>)
      requires NoEmptyValues(before.settings) && kv.Keys <= KeysOf(p) && w.writes && err.Some?
      requires prev == Recorded(before.settings, KeysOf(p), w.snapshot)
      requires Now() == before.(settings := Written(before.settings, kv))
      modifies this`settings, this`gh, this`oidc
      ensures SavedOrRestored(env, enc, p, kv, w, before, Now(), err)
      ensures settings == StoredAfter(before.settings, kv, p, w, err) && NoEmptyValues(settings)
    {
      var _ := WriteSettings(prev, w.rollbackWrites);
      WritingBackLeaves(before.settings, kv, KeysOf(p), w.snapshot);
      var _ := Reload(p, w.second);
      BatchOnlyTouches(p, kv, w, before, Now(), err);
    }

    /** The common tail of saving and clearing: write the batch, reload that one provider, and on a reload error
        write the recorded values back and reload again. */
    method WriteAndReload(p: Provider, kv: Settings, prev: Settings, w: World) returns (err: Option<Error>)
      requires NoEmptyValues(settings) && !EnvManaged(env, p)
      requires kv.Keys <= KeysOf(p) && prev == Recorded(settings, KeysOf(p), w.snapshot)
      modifies this`settings, this`gh, this`oidc
      ensures SavedOrRestored(env, enc, p, kv, w, old(Now()), Now(), err)
      ensures settings == StoredAfter(old(settings), kv, p, w, err) && NoEmptyValues(settings)
      ensures err != Some(FieldMissing)
      ensures !w.writes ==> err == Some(WriteFailed)
      ensures var t := Written(old(settings), kv);
              var e := EffectiveRead(env, t, enc, w.first.unread);
              && (w.writes && e == None ==> err == Some(ConfigUnreadable))
              && (w.writes && e.Some? && GetSetting(t, IdKeyOf(p)) == "" ==> err == None)
    {
      ghost var before := Now();
      err := WriteSettings(kv, w.writes);
      if err.Some? {
        return;
      }
      err := Reload(p, w.first);
      if err.Some? {
        RollBack(p, prev, w, before, kv, err);
      } else {
        BatchOnlyTouches(p, kv, w, before, Now(), err);
      }
    }

    /** Saves a provider's plain values and, unless it is blank, its secret; a blank secret keeps the stored one. */
    method SaveProvider(p: Provider, values: Settings, secretVal: string, w: World) returns (err: Option<Error>)
      requires NoEmptyValues(settings) && !EnvManaged(env, p)
      requires values.Keys == KeysOf(p) - {SecretKeyOf(p)}
      requires enc.Some? && w.nonce.Some? ==> GoodNonce(enc.value, w.nonce.value)
      modifies this`settings, this`gh, this`oidc
      ensures NoEmptyValues(settings)
      ensures Handled(env, enc, p, w, old(Now()), Now(), err)
      ensures err != Some(FieldMissing)
      ensures err == None ==> BuiltFromRead(env, enc, p, Now(), w.first.unread)
      ensures err == None ==> forall k :: k in values ==> GetSetting(settings, k) == values[k]
      ensures err == None && secretVal == "" ==>
        GetSetting(settings, SecretKeyOf(p)) == GetSetting(old(settings), SecretKeyOf(p))
      ensures err == None && secretVal != "" && !HasPrefix(secretVal) ==>
        GetSecretSetting(settings, enc, SecretKeyOf(p)) == Ok(secretVal)
      ensures secretVal != "" && enc == None ==> err == Some(NoSecretKey) && Now() == old(Now())
      ensures secretVal == "" || (enc.Some? && HasPrefix(secretVal)) ==>
        settings == StoredAfter(old(settings), PlainBatch(values, p, secretVal), p, w, err)
    {
      ghost var before := Now();
      var prev := Snapshot(KeysOf(p), w.snapshot);
      var batch := values;
      if secretVal != "" {
        var sealed, e := SealSecret(SecretKeyOf(p), secretVal, w.nonce);
        if e.Some? {
          NothingWritten(env, enc, p, w, before, e);
          return e;
        }
        batch := batch[SecretKeyOf(p) := sealed];
      }
      WrittenReads(settings, batch);
      err := WriteAndReload(p, batch, prev, w);
      SavedIsHandled(env, enc, p, batch, w, before, Now(), err);
    }

    /** Removes a provider's settings. Once the deletion is written only a settings read can fail: without its
        identifying field a provider is simply off. */
    method ClearProvider(p: Provider, w: World) returns (err: Option<Error>)
      requires Effective(env, settings, enc).Some? && NoEmptyValues(settings) && !EnvManaged(env, p)
      modifies this`settings, this`gh, this`oidc
      ensures NoEmptyValues(settings)
      ensures Handled(env, enc, p, w, old(Now()), Now(), err)
      ensures err == if !w.writes then Some(WriteFailed)
                     else if ReadsAbort(env, old(settings) - KeysOf(p), w.first.unread) then Some(ConfigUnreadable)
                     else None
      ensures settings == if !w.writes then old(settings)
                          else if err == None || !w.rollbackWrites then old(settings) - KeysOf(p)
                          else old(settings) - (w.snapshot * KeysOf(p))
      ensures err == None ==> if p == GitHub then gh == None else oidc == None
    {
      ghost var before := Now();
      var prev := Snapshot(KeysOf(p), w.snapshot);
      var del: Settings := map k | k in KeysOf(p) :: "";
      ClearedIsReadable(env, settings, enc, p);
      ReadIff(env, Written(settings, del), enc, w.first.unread);
      err := WriteAndReload(p, del, prev, w);
      SavedIsHandled(env, enc, p, del, w, before, Now(), err);
      ClearedIsOff(env, enc, p, before, Now(), w.first.unread);
    }

    /** The secret a save means: the one given, or the stored one if that is blank. */
    ghost function Meant(k: Key, secret: string): Result<string>
      reads this
    {
      if secret == "" then GetSecretSetting(settings, enc, k) else Ok(secret)
    }

    /** A blank secret needs a stored one; a failed look at it counts as none. */
    predicate SecretMissing(p: Provider, secret: string, checkFails: bool)
      reads this
    {
      secret == "" && (checkFails || GetSetting(settings, SecretKeyOf(p)) == "")
    }

    method PostGithubSave(form: Form, w: World) returns (err: Option<Error>)
      requires form.GithubSave? && NoEmptyValues(settings) && !EnvManaged(env, GitHub)
      requires enc.Some? && w.nonce.Some? ==> GoodNonce(enc.value, w.nonce.value)
      modifies this`settings, this`gh, this`oidc
      ensures NoEmptyValues(settings) && Handled(env, enc, GitHub, w, old(Now()), Now(), err)
      ensures form.id == "" || (form.secret == "" && (w.checkFails || GetSetting(old(settings), GhSecret) == "")) <==>
              err == Some(FieldMissing)
      ensures err == None && !HasPrefix(form.secret) ==>
              var sec := old(Meant(GhSecret, form.secret));
              sec.Ok? && gh == GhOf(form.id, sec.value, form.org, w.first.unread)
    {
      if form.id == "" || SecretMissing(GitHub, form.secret, w.checkFails) {
        return Some(FieldMissing);
      }
      var values := ValuesOf(form);
      err := SaveProvider(GitHub, values, form.secret, w);
      if err == None {
        assert values[GhId] == form.id && values[GhOrg] == form.org;
        GitHubAsSaved(env, enc, Now(), w.first.unread);
      }
    }

    method PostOidcSave(form: Form, w: World) returns (err: Option<Error>)
      requires form.OidcSave? && NoEmptyValues(settings) && !EnvManaged(env, Oidc)
      requires enc.Some? && w.nonce.Some? ==> GoodNonce(enc.value, w.nonce.value)
      modifies this`settings, this`gh, this`oidc
      ensures NoEmptyValues(settings) && Handled(env, enc, Oidc, w, old(Now()), Now(), err)
      ensures form.issuer == "" || form.id == ""
              || (form.secret == "" && (w.checkFails || GetSetting(old(settings), OidcSecret) == "")) <==>
              err == Some(FieldMissing)
      ensures err == None && !HasPrefix(form.secret) ==>
              var sec := old(Meant(OidcSecret, form.secret));
              sec.Ok? && oidc == OidcOf(form, sec.value, w.first.unread)
      ensures form.issuer != "" && form.id != "" && HasPrefix(form.secret) && enc.Some? ==>
        settings == StoredAfter(old(settings), PlainBatch(ValuesOf(form), Oidc, form.secret), Oidc, w, err)
    {
      if form.issuer == "" || form.id == "" || SecretMissing(Oidc, form.secret, w.checkFails) {
        return Some(FieldMissing);
      }
      var values := ValuesOf(form);
      err := SaveProvider(Oidc, values, form.secret, w);
      if err == None {
        OidcReadsBack(form, settings);
        OidcAsSaved(env, enc, form, Now(), w.first.unread);
      }
    }

    /** One POST to the configuration page, from start to end under the lock. While either provider is broken nothing
        at all happens, whichever the form is about; otherwise, if the reads work, a provider can always be cleared. A
        provider the environment manages cannot be changed. */
    method HandleAuthConfigPost(form: Form, w: World) returns (err: Option<Error>)
      requires NoEmptyValues(settings)
      requires enc.Some? && w.nonce.Some? ==> GoodNonce(enc.value, w.nonce.value)
      modifies this`settings, this`gh, this`oidc
      ensures NoEmptyValues(settings)
      ensures Handled(env, enc, TargetOf(form), w, old(Now()), Now(), err)
      ensures var s := old(settings);
              Broken(env, s, enc, GitHub) || Broken(env, s, enc, Oidc) || ReadsAbort(env, s, w.opening) ==>
                err == Some(ConfigUnreadable) && Now() == old(Now())
      ensures var s, p := old(settings), TargetOf(form);
              (form.GithubClear? || form.OidcClear?) && !EnvManaged(env, p) && !Broken(env, s, enc, GitHub)
              && !Broken(env, s, enc, Oidc) && !ReadsAbort(env, s, w.opening) ==>
                err == if !w.writes then Some(WriteFailed)
                       else if ReadsAbort(env, s - KeysOf(p), w.first.unread) then Some(ConfigUnreadable)
                       else None
      ensures EnvManaged(env, TargetOf(form)) || form.Unrecognised? ==> Now() == old(Now())
      ensures EnvManaged(env, TargetOf(form)) && !form.Unrecognised? ==> err.Some?
      ensures form.GithubSave? && err == None && !HasPrefix(form.secret) ==>
              var sec := old(Meant(GhSecret, form.secret));
              sec.Ok? && gh == GhOf(form.id, sec.value, form.org, w.first.unread)
      ensures form.OidcSave? && err == None && !HasPrefix(form.secret) ==>
              var sec := old(Meant(OidcSecret, form.secret));
              sec.Ok? && oidc == OidcOf(form, sec.value, w.first.unread)
      ensures form.GithubClear? && err == None ==> gh == None
      ensures form.OidcClear? && err == None ==> oidc == None
      ensures form.OidcSave? && form.issuer != "" && form.id != "" && HasPrefix(form.secret) && enc.Some?
              && !EnvManaged(env, Oidc) && EffectiveRead(env, old(settings), enc, w.opening).Some? ==>
        settings == StoredAfter(old(settings), PlainBatch(ValuesOf(form), Oidc, form.secret), Oidc, w, err)
    {
      ReadableIff(env, settings, enc);
      ReadIff(env, settings, enc, w.opening);
      if EffectiveRead(env, settings, enc, w.opening) == None {
        return Some(ConfigUnreadable);
      }
      if form != Unrecognised && EnvManaged(env, TargetOf(form)) {
        return Some(ManagedByEnv);
      }
      match form {
        case GithubSave(_, _, _) => err := PostGithubSave(form, w);
        case OidcSave(_, _, _, _, _) => err := PostOidcSave(form, w);
        case GithubClear => err := ClearProvider(GitHub, w);
        case OidcClear => err := ClearProvider(Oidc, w);
        case Unrecognised => err := None;
      }
    }
  }

  // ---------------------------------------------------------------- one provider blocks the other: a run

  const NO_ENV := Config("https://nest", "", "", "", "", "", "", "", "")

  /** A secret that looks sealed already is stored as it is; this one is too short to open under any key. */
  const POISON: Form := OidcSave("https://idp", "nest", "enc:v1:AAAA", "", "")

  const STRANDED: Settings := map[OidcIssuer := "https://idp", OidcId := "nest", OidcSecret := "enc:v1:AAAA"]

  /** GitHub is in order, and yet no change to its settings can take effect. */
  lemma StrandedBlocksGitHub(b: Box)
    requires b.aead.nonceSize == 12
    ensures Broken(NO_ENV, STRANDED, Some(b), Oidc) && !Broken(NO_ENV, STRANDED, Some(b), GitHub)
    ensures forall kv: Settings :: kv.Keys <= KeysOf(GitHub) ==>
      Effective(NO_ENV, Written(STRANDED, kv), Some(b)) == None
  {
    assert GetSetting(STRANDED, OidcSecret) == "enc:v1:AAAA" && GetSetting(STRANDED, OidcIssuer) != "";
    assert GetSetting(STRANDED, GhId) == "";
    TooShortToOpen(b, SettingAad(OidcSecret));
    OneProviderBlocksTheOtherIff(NO_ENV, STRANDED, Some(b), GitHub);
  }

  lemma TooShortToOpen(b: Box, aad: string)
    requires b.aead.nonceSize == 12
    ensures DecryptStrict(Some(b), "enc:v1:AAAA", aad) == Err
  {
    assert |"enc:v1:AAAA"[|PREFIX|..]| == 4;
    var raw := b.base64.decode("enc:v1:AAAA"[|PREFIX|..]);
    assert raw.Some? ==> |raw.value| <= 4;
  }

  /** A server with a key and no settings starts. */
  method FreshServer(b: Box) returns (server: AuthServer, started: Option<Error>)
    ensures fresh(server) && server.env == NO_ENV && server.enc == Some(b) && server.settings == map[]
    ensures started == None
  {
    var fine := Replies({}, true, true);
    server := new AuthServer(NO_ENV, Some(b), map[]);
    started := server.ReloadAuthProviders(fine, fine);
  }

  /** Then an admin saves such a secret; the reload fails, and the rollback cannot be written. */
  method SaveStrandsTheServer(server: AuthServer, b: Box, w: World) returns (saved: Option<Error>)
    requires b.aead.nonceSize == 12 && (w.nonce.Some? ==> GoodNonce(b, w.nonce.value))
    requires w.opening == {} && w.writes && !w.rollbackWrites
    requires server.env == NO_ENV && server.enc == Some(b) && server.settings == map[]
    modifies server
    ensures saved.Some? && server.settings == STRANDED
  {
    EmptyIsReadable(Some(b));
    ghost var before := server.Now();
    saved := server.HandleAuthConfigPost(POISON, w);
    PoisonIsStored(w, saved);
    StrandedBlocksGitHub(b);
    if saved == None {
      SuccessIsReadable(NO_ENV, Some(b), Oidc, w, before, server.Now());
      StrandedIsUnreadable(b, w.first.unread);
    }
  }

  lemma EmptyIsReadable(enc: Option<Box>)
    ensures EffectiveRead(NO_ENV, map[], enc, {}).Some?
  {
  }

  lemma PoisonIsStored(w: World, err: Option<Error>)
    requires w.writes && !w.rollbackWrites
    ensures HasPrefix(POISON.secret)
    ensures StoredAfter(map[], PlainBatch(ValuesOf(POISON), Oidc, POISON.secret), Oidc, w, err) == STRANDED
  {
  }

  lemma SuccessIsReadable(env: Config, enc: Option<Box>, p: Provider, w: World, before: Live, after: Live)
    requires Handled(env, enc, p, w, before, after, None) && after.settings != before.settings
    ensures EffectiveRead(env, after.settings, enc, w.first.unread).Some?
  {
  }

  lemma StrandedIsUnreadable(b: Box, unread: set<Key>)
    requires Broken(NO_ENV, STRANDED, Some(b), Oidc)
    ensures EffectiveRead(NO_ENV, STRANDED, Some(b), unread) == None
  {
    ReadableIff(NO_ENV, STRANDED, Some(b));
    ReadIff(NO_ENV, STRANDED, Some(b), unread);
  }

  /** After that no form gets through, be it about GitHub or to clear the OIDC settings, although every read and write
      works again. */
  method StrandedServerIsLocked(server: AuthServer, b: Box, form: Form, w: World) returns (err: Option<Error>)
    requires b.aead.nonceSize == 12 && (w.nonce.Some? ==> GoodNonce(b, w.nonce.value))
    requires server.env == NO_ENV && server.enc == Some(b) && server.settings == STRANDED
    modifies server
    ensures err == Some(ConfigUnreadable) && server.Now() == old(server.Now())
  {
    StrandedBlocksGitHub(b);
    err := server.HandleAuthConfigPost(form, w);
  }
}
