/**
 * Migrations 086 and 087: settings kept as key/value text turned into one typed row, and back.
 * Both do the same steps; what differs is how a row is read from the texts and written to them.
 */
module TypedSettings {
  import opened Options

  /** The migrated keys of `system_settings`, and all others by name. */
  datatype Key =
    | AiEnabled | AiEnabledUpdatedAt | AiProvider | AiModel | AiApiKey | AiDeploymentMode | AiBaseUrl
    | AiDpaAcknowledged | AiDpaAcknowledgedBy | AiDpaAcknowledgedAt | AiDpaAcknowledgedForProvider | AiCustomDpaUrl
    | SmtpHost | SmtpPort | SmtpUser | SmtpPassEncrypted | SmtpEnabled
    | Other(name: string)

  const AI_KEYS: set<Key> := {
    AiEnabled, AiEnabledUpdatedAt, AiProvider, AiModel, AiApiKey, AiDeploymentMode, AiBaseUrl,
    AiDpaAcknowledged, AiDpaAcknowledgedBy, AiDpaAcknowledgedAt, AiDpaAcknowledgedForProvider, AiCustomDpaUrl
  }

  const SMTP_KEYS: set<Key> := {SmtpHost, SmtpPort, SmtpUser, SmtpPassEncrypted, SmtpEnabled}

  type Settings = map<Key, string>

  // ----- the two steps, whatever the row -----

  /** How a row is read from the settings, if every value has its column's type, and written to them. */
  datatype Codec<!Row> = Codec(keys: set<Key>, read: Settings -> Option<Row>, write: Row -> Settings)

  function AfterDown<Row>(codec: Codec<Row>, settings: Settings, rows: seq<Row>): Settings {
    if rows == [] then settings else settings + codec.write(rows[0])
  }

  class Database<Row(==)> {
    var settings: Settings
    /** The typed table, where it exists; its unique constraint allows one row. */
    var table: Option<seq<Row>>

    constructor (settings: Settings)
      ensures this.settings == settings && table == None
    {
      this.settings, table := settings, None;
    }

    /** `INSERT … ON CONFLICT ON CONSTRAINT …_singleton_unique DO NOTHING` */
    static function InsertUnlessPresent(rows: seq<Row>, row: Row): seq<Row> {
      if rows == [] then [row] else rows
    }

    /**
     * Fails, and changes nothing, exactly when some value does not have its column's type. Else
     * there is one row, the one read; the fallback row never gets in.
     */
    method Up(codec: Codec<Row>, defaults: Row) returns (ok: bool)
      requires table == None
      modifies this
      ensures ok <==> codec.read(old(settings)).Some?
      ensures !ok ==> settings == old(settings) && table == old(table)
      ensures ok ==> table == Some([codec.read(old(settings)).value]) && settings == old(settings) - codec.keys
    {
      var row := codec.read(settings);
      if row.None? { return false; }
      var rows := [row.value];
      rows := InsertUnlessPresent(rows, defaults);
      table := Some(rows);
      settings := settings - codec.keys;
      ok := true;
    }

    method Down(codec: Codec<Row>)
      requires table.Some? && |table.value| <= 1
      modifies this
      ensures table == None && settings == AfterDown(codec, old(settings), old(table).value)
      ensures old(table).value == [] ==> settings == old(settings)
      ensures old(table).value != [] ==>
                var written := codec.write(old(table).value[0]);
                settings.Keys == old(settings).Keys + written.Keys && forall k :: k in settings ==>
                  settings[k] == if k in written then written[k] else old(settings)[k]
    {
      var rows := table.value;
      for i := 0 to |rows|
        invariant settings == AfterDown(codec, old(settings), rows[..i])
      {
        settings := settings + codec.write(rows[i]);
      }
      table := None;
    }
  }

  // ----- reading and writing values -----

  function Value(s: Settings, k: Key): Option<string> { if k in s then Some(s[k]) else None }

  /** `NULLIF(value, '')` */
  function NonEmpty(v: Option<string>): Option<string> { if v == Some("") then None else v }

  /** `COALESCE(v, default)` */
  function Or(v: Option<string>, default_: string): string { if v.Some? then v.value else default_ }

  /** A text put into `varchar(n)`: spaces past the end are cut off, anything else is an error. */
  function Fit(n: nat, s: string): (t: Option<string>)
    ensures t.Some? ==> |t.value| <= n
    ensures |s| <= n ==> t == Some(s)
  {
    if |s| <= n then Some(s)
    else if forall k :: n <= k < |s| ==> s[k] == ' ' then Some(s[..n])
    else None
  }

  /** The casts between text and the column types. */
  datatype Casts = Casts(toTime: string -> Option<int>, ofTime: int -> string,
                         toInteger: string -> Option<int>, ofInteger: int -> string)

  predicate IsInteger(n: int) { -0x8000_0000 <= n < 0x8000_0000 }

  /** A value cast to text and back is that value, and never the empty text. */
  ghost predicate AreCasts(c: Casts) {
    && (forall t :: c.ofTime(t) != "" && c.toTime(c.ofTime(t)) == Some(t))
    && (forall n :: IsInteger(n) ==> c.ofInteger(n) != "" && c.toInteger(c.ofInteger(n)) == Some(n))
    && (forall s :: c.toInteger(s).Some? ==> IsInteger(c.toInteger(s).value))
  }

  /** `CASE WHEN NULLIF(v, '') IS NOT NULL THEN v::timestamptz ELSE NULL END` */
  function ReadTime(c: Casts, v: Option<string>): Option<Option<int>> {
    if NonEmpty(v).None? then Some(None)
    else match c.toTime(v.value)
      case None => None
      case Some(t) => Some(Some(t))
  }

  function ShowTime(c: Casts, t: Option<int>): string { if t.Some? then c.ofTime(t.value) else "" }

  function ReadBool(v: Option<string>): bool { Or(v, "false") == "true" }

  function ShowBool(b: bool): string { if b then "true" else "false" }

  // ----- 086 -----

  /** A row of `ai_configuration`, but for its own update stamp. */
  datatype AiRow = AiRow(provider: string, model: string, apiKeyEncrypted: string, deploymentMode: string,
                         baseUrl: string, enabled: bool, enabledUpdatedAt: Option<int>, dpaAcknowledged: bool,
                         dpaAcknowledgedBy: Option<int>, dpaAcknowledgedAt: Option<int>,
                         dpaAcknowledgedForProvider: string, customDpaUrl: string, updatedBy: Option<int>)

  /** The column widths. */
  predicate IsAiRow(r: AiRow) {
    && |r.provider| <= 50 && |r.model| <= 100 && |r.deploymentMode| <= 30
    && |r.dpaAcknowledgedForProvider| <= 50
  }

  /** The `DEFAULT` clauses of the columns, which the fallback insert would use. */
  const AI_COLUMN_DEFAULTS :=
    AiRow("anthropic", "claude-sonnet-4-20250514", "", "cloud_api", "", false, None, false, None, None, "", "", None)

  function ReadAi(c: Casts, s: Settings): Option<AiRow> {
    var provider := Fit(50, Or(NonEmpty(Value(s, AiProvider)), "anthropic"));
    var model := Fit(100, Or(NonEmpty(Value(s, AiModel)), "claude-sonnet-4-20250514"));
    var mode := Fit(30, Or(NonEmpty(Value(s, AiDeploymentMode)), "cloud_api"));
    var forProvider := Fit(50, Or(Value(s, AiDpaAcknowledgedForProvider), ""));
    var enabledAt := ReadTime(c, Value(s, AiEnabledUpdatedAt));
    var dpaAt := ReadTime(c, Value(s, AiDpaAcknowledgedAt));
    if provider.None? || model.None? || mode.None? || forProvider.None? || enabledAt.None? || dpaAt.None? then None
    else Some(AiRow(provider.value, model.value, Or(Value(s, AiApiKey), ""), mode.value, Or(Value(s, AiBaseUrl), ""),
                    ReadBool(Value(s, AiEnabled)), enabledAt.value, ReadBool(Value(s, AiDpaAcknowledged)), None,
                    dpaAt.value, forProvider.value, Or(Value(s, AiCustomDpaUrl), ""), None))
  }

  function WriteAi(c: Casts, r: AiRow): Settings {
    map[
      AiEnabled := ShowBool(r.enabled),
      AiEnabledUpdatedAt := ShowTime(c, r.enabledUpdatedAt),
      AiProvider := r.provider,
      AiModel := r.model,
      AiApiKey := r.apiKeyEncrypted,
      AiDeploymentMode := r.deploymentMode,
      AiBaseUrl := r.baseUrl,
      AiDpaAcknowledged := ShowBool(r.dpaAcknowledged),
      AiDpaAcknowledgedBy := "",
      AiDpaAcknowledgedAt := ShowTime(c, r.dpaAcknowledgedAt),
      AiDpaAcknowledgedForProvider := r.dpaAcknowledgedForProvider,
      AiCustomDpaUrl := r.customDpaUrl
    ]
  }

  function AiCodec(c: Casts): Codec<AiRow> { Codec(AI_KEYS, s => ReadAi(c, s), r => WriteAi(c, r)) }

  // ----- 087 -----

  datatype SmtpRow = SmtpRow(host: string, port: int, username: string, passEncrypted: string, enabled: bool)

  predicate IsSmtpRow(r: SmtpRow) { |r.host| <= 255 && |r.username| <= 255 && IsInteger(r.port) }

  const SMTP_COLUMN_DEFAULTS := SmtpRow("", 587, "", "", false)

  function ReadSmtp(c: Casts, s: Settings): Option<SmtpRow> {
    var host := Fit(255, Or(Value(s, SmtpHost), ""));
    var port := c.toInteger(Or(NonEmpty(Value(s, SmtpPort)), "587"));
    var user := Fit(255, Or(Value(s, SmtpUser), ""));
    if host.None? || port.None? || user.None? then None
    else Some(SmtpRow(host.value, port.value, user.value, Or(Value(s, SmtpPassEncrypted), ""),
                      ReadBool(Value(s, SmtpEnabled))))
  }

  function WriteSmtp(c: Casts, r: SmtpRow): Settings {
    map[
      SmtpHost := r.host,
      SmtpPort := c.ofInteger(r.port),
      SmtpUser := r.username,
      SmtpPassEncrypted := r.passEncrypted,
      SmtpEnabled := ShowBool(r.enabled)
    ]
  }

  function SmtpCodec(c: Casts): Codec<SmtpRow> { Codec(SMTP_KEYS, s => ReadSmtp(c, s), r => WriteSmtp(c, r)) }

  // ----- which key each column stands for -----

  /** The text under the key, or the empty text. */
  function TextAt(s: Settings, k: Key): string { if k in s then s[k] else "" }

  /** `t` as a column of width `n` takes it: as it is, or without spaces past the width. */
  predicate IsFitted(n: nat, t: string, column: string) {
    column <= t && (|t| <= n ==> column == t)
    && (|t| > n ==> |column| == n && forall k :: n <= k < |t| ==> t[k] == ' ')
  }

  /** Nothing but spaces stands past the width. */
  predicate IsFitting(n: nat, t: string) { forall k :: n <= k < |t| ==> t[k] == ' ' }

  lemma FittedIs(n: nat, t: string)
    ensures Fit(n, t).Some? <==> IsFitting(n, t)
    ensures Fit(n, t).Some? ==> IsFitted(n, t, Fit(n, t).value)
  {
  }

  /** What `up` puts into each column of the SMTP row. */
  lemma SmtpColumns(c: Casts, s: Settings)
    requires ReadSmtp(c, s).Some?
    ensures var r := ReadSmtp(c, s).value;
            && IsFitted(255, TextAt(s, SmtpHost), r.host) && IsFitted(255, TextAt(s, SmtpUser), r.username)
            && c.toInteger(if TextAt(s, SmtpPort) == "" then "587" else s[SmtpPort]) == Some(r.port)
            && r.passEncrypted == TextAt(s, SmtpPassEncrypted) && (r.enabled <==> TextAt(s, SmtpEnabled) == "true")
  {
    FittedIs(255, TextAt(s, SmtpHost));
    FittedIs(255, TextAt(s, SmtpUser));
    hide Fit, IsFitted;
  }

  predicate IsTimeText(c: Casts, s: Settings, k: Key) { TextAt(s, k) == "" || c.toTime(s[k]).Some? }

  /** Exactly when `up` can read the texts. */
  lemma ReadsExactly(c: Casts, s: Settings)
    ensures ReadSmtp(c, s).Some? <==>
            && IsFitting(255, TextAt(s, SmtpHost)) && IsFitting(255, TextAt(s, SmtpUser))
            && c.toInteger(if TextAt(s, SmtpPort) == "" then "587" else s[SmtpPort]).Some?
    ensures ReadAi(c, s).Some? <==>
            && IsFitting(50, OrDefault(TextAt(s, AiProvider), "anthropic"))
            && IsFitting(100, OrDefault(TextAt(s, AiModel), "claude-sonnet-4-20250514"))
            && IsFitting(30, OrDefault(TextAt(s, AiDeploymentMode), "cloud_api"))
            && IsFitting(50, TextAt(s, AiDpaAcknowledgedForProvider))
            && IsTimeText(c, s, AiEnabledUpdatedAt) && IsTimeText(c, s, AiDpaAcknowledgedAt)
  {
    FittedIs(255, TextAt(s, SmtpHost));
    FittedIs(255, TextAt(s, SmtpUser));
    AiTexts(s);
    TimeIs(c, s, AiEnabledUpdatedAt);
    TimeIs(c, s, AiDpaAcknowledgedAt);
    FittedIs(50, OrDefault(TextAt(s, AiProvider), "anthropic"));
    FittedIs(100, OrDefault(TextAt(s, AiModel), "claude-sonnet-4-20250514"));
    FittedIs(30, OrDefault(TextAt(s, AiDeploymentMode), "cloud_api"));
    FittedIs(50, TextAt(s, AiDpaAcknowledgedForProvider));
    hide Fit, IsFitted, IsFitting, ReadTime;
  }

  /** What `down` writes under each SMTP key. */
  lemma SmtpKeys(c: Casts, r: SmtpRow)
    ensures var w := WriteSmtp(c, r);
            && w.Keys == {SmtpHost, SmtpPort, SmtpUser, SmtpPassEncrypted, SmtpEnabled}
            && w[SmtpHost] == r.host && w[SmtpPort] == c.ofInteger(r.port) && w[SmtpUser] == r.username
            && w[SmtpPassEncrypted] == r.passEncrypted && w[SmtpEnabled] == if r.enabled then "true" else "false"
  {
  }

  /** A time under a key: the empty text is no time. */
  predicate IsTimeAt(c: Casts, s: Settings, k: Key, time: Option<int>) {
    if TextAt(s, k) == "" then time == None else c.toTime(s[k]) == time && time.Some?
  }

  lemma TimeIs(c: Casts, s: Settings, k: Key)
    ensures ReadTime(c, Value(s, k)).Some? <==> IsTimeText(c, s, k)
    ensures ReadTime(c, Value(s, k)).Some? ==> IsTimeAt(c, s, k, ReadTime(c, Value(s, k)).value)
  {
  }

  /** A text that is not empty stands for itself, the empty one for the default. */
  function OrDefault(t: string, default_: string): string { if t == "" then default_ else t }

  lemma TextIs(s: Settings, k: Key, default_: string)
    ensures Or(NonEmpty(Value(s, k)), default_) == OrDefault(TextAt(s, k), default_)
    ensures Or(Value(s, k), "") == TextAt(s, k)
    ensures ReadBool(Value(s, k)) <==> TextAt(s, k) == "true"
  {
  }

  /** What `up` puts into each column of the AI row. */
  lemma AiColumns(c: Casts, s: Settings)
    requires ReadAi(c, s).Some?
    ensures var r := ReadAi(c, s).value;
            && IsFitted(50, OrDefault(TextAt(s, AiProvider), "anthropic"), r.provider)
            && IsFitted(100, OrDefault(TextAt(s, AiModel), "claude-sonnet-4-20250514"), r.model)
            && IsFitted(30, OrDefault(TextAt(s, AiDeploymentMode), "cloud_api"), r.deploymentMode)
            && IsFitted(50, TextAt(s, AiDpaAcknowledgedForProvider), r.dpaAcknowledgedForProvider)
            && r.apiKeyEncrypted == TextAt(s, AiApiKey) && r.baseUrl == TextAt(s, AiBaseUrl)
            && r.customDpaUrl == TextAt(s, AiCustomDpaUrl)
            && (r.enabled <==> TextAt(s, AiEnabled) == "true")
            && (r.dpaAcknowledged <==> TextAt(s, AiDpaAcknowledged) == "true")
            && IsTimeAt(c, s, AiEnabledUpdatedAt, r.enabledUpdatedAt)
            && IsTimeAt(c, s, AiDpaAcknowledgedAt, r.dpaAcknowledgedAt)
            && r.dpaAcknowledgedBy == None && r.updatedBy == None
  {
    AiTexts(s);
    TimeIs(c, s, AiEnabledUpdatedAt);
    TimeIs(c, s, AiDpaAcknowledgedAt);
    FittedIs(50, OrDefault(TextAt(s, AiProvider), "anthropic"));
    FittedIs(100, OrDefault(TextAt(s, AiModel), "claude-sonnet-4-20250514"));
    FittedIs(30, OrDefault(TextAt(s, AiDeploymentMode), "cloud_api"));
    FittedIs(50, TextAt(s, AiDpaAcknowledgedForProvider));
    hide Fit, IsFitted, TextAt, OrDefault, ReadTime, IsTimeAt, ReadBool, Or, NonEmpty, Value;
  }

  lemma AiTexts(s: Settings)
    ensures Or(NonEmpty(Value(s, AiProvider)), "anthropic") == OrDefault(TextAt(s, AiProvider), "anthropic")
    ensures Or(NonEmpty(Value(s, AiModel)), "claude-sonnet-4-20250514")
         == OrDefault(TextAt(s, AiModel), "claude-sonnet-4-20250514")
    ensures Or(NonEmpty(Value(s, AiDeploymentMode)), "cloud_api") == OrDefault(TextAt(s, AiDeploymentMode), "cloud_api")
    ensures forall k :: Or(Value(s, k), "") == TextAt(s, k) && (ReadBool(Value(s, k)) <==> TextAt(s, k) == "true")
  {
    TextIs(s, AiProvider, "anthropic");
    TextIs(s, AiModel, "claude-sonnet-4-20250514");
    TextIs(s, AiDeploymentMode, "cloud_api");
    forall k ensures Or(Value(s, k), "") == TextAt(s, k) && (ReadBool(Value(s, k)) <==> TextAt(s, k) == "true") {
      TextIs(s, k, "");
    }
  }

  /** What `down` writes under each AI key. */
  lemma AiKeys(c: Casts, r: AiRow)
    ensures var w := WriteAi(c, r);
            && w.Keys == AI_KEYS
            && w[AiProvider] == r.provider && w[AiModel] == r.model && w[AiDeploymentMode] == r.deploymentMode
            && w[AiApiKey] == r.apiKeyEncrypted && w[AiBaseUrl] == r.baseUrl && w[AiCustomDpaUrl] == r.customDpaUrl
            && w[AiDpaAcknowledgedForProvider] == r.dpaAcknowledgedForProvider && w[AiDpaAcknowledgedBy] == ""
            && w[AiEnabled] == (if r.enabled then "true" else "false")
            && w[AiDpaAcknowledged] == (if r.dpaAcknowledged then "true" else "false")
            && w[AiEnabledUpdatedAt] == (if r.enabledUpdatedAt.Some? then c.ofTime(r.enabledUpdatedAt.value) else "")
            && w[AiDpaAcknowledgedAt] == (if r.dpaAcknowledgedAt.Some? then c.ofTime(r.dpaAcknowledgedAt.value) else "")
  {
  }

  // ----- what the pairs of migrations keep -----

  /** Reading looks at the codec's own keys alone, and writing sets exactly those. */
  ghost predicate IsCodec<Row(!new)>(codec: Codec<Row>) {
    && (forall r :: codec.write(r).Keys == codec.keys)
    && (forall s, t: Settings :: (forall k :: k in codec.keys ==> Value(s, k) == Value(t, k)) ==>
          codec.read(s) == codec.read(t))
  }

  /** The row survives `down` and `up`, in whatever surroundings. */
  ghost predicate Survives<Row>(codec: Codec<Row>, row: Row) {
    forall s: Settings :: codec.read(s + codec.write(row)) == Some(row)
  }

  lemma TimeShown(c: Casts, t: int)
    requires AreCasts(c)
    ensures c.ofTime(t) != "" && c.toTime(c.ofTime(t)) == Some(t)
  {
  }

  lemma ReadTimeShown(c: Casts, t: Option<int>)
    requires AreCasts(c)
    ensures ReadTime(c, Some(ShowTime(c, t))) == Some(t)
  {
    if t.Some? { TimeShown(c, t.value); }
  }

  lemma ReadBoolShown(b: bool)
    ensures ReadBool(Some(ShowBool(b))) == b
  {
    var t, f := "true", "false";
    assert |t| != |f|;
  }

  /** What a row becomes by `down` and `up`. */
  function AiRowAgain(r: AiRow): AiRow {
    r.(provider := if r.provider == "" then AI_COLUMN_DEFAULTS.provider else r.provider,
       model := if r.model == "" then AI_COLUMN_DEFAULTS.model else r.model,
       deploymentMode := if r.deploymentMode == "" then AI_COLUMN_DEFAULTS.deploymentMode else r.deploymentMode,
       dpaAcknowledgedBy := None, updatedBy := None)
  }

  lemma WrittenAiValues(c: Casts, s: Settings, r: AiRow)
    ensures var w := s + WriteAi(c, r);
            && Value(w, AiEnabled) == Some(ShowBool(r.enabled))
            && Value(w, AiEnabledUpdatedAt) == Some(ShowTime(c, r.enabledUpdatedAt))
            && Value(w, AiProvider) == Some(r.provider) && Value(w, AiModel) == Some(r.model)
            && Value(w, AiApiKey) == Some(r.apiKeyEncrypted)
            && Value(w, AiDeploymentMode) == Some(r.deploymentMode) && Value(w, AiBaseUrl) == Some(r.baseUrl)
            && Value(w, AiDpaAcknowledged) == Some(ShowBool(r.dpaAcknowledged))
            && Value(w, AiDpaAcknowledgedAt) == Some(ShowTime(c, r.dpaAcknowledgedAt))
            && Value(w, AiDpaAcknowledgedForProvider) == Some(r.dpaAcknowledgedForProvider)
            && Value(w, AiCustomDpaUrl) == Some(r.customDpaUrl)
  {
    hide ShowTime, ShowBool;
  }

  lemma ReadWrittenAi(c: Casts, s: Settings, r: AiRow)
    requires AreCasts(c) && IsAiRow(r)
    ensures ReadAi(c, s + WriteAi(c, r)) == Some(AiRowAgain(r))
  {
    WrittenAiValues(c, s, r);
    ReadTimeShown(c, r.enabledUpdatedAt);
    ReadTimeShown(c, r.dpaAcknowledgedAt);
    ReadBoolShown(r.enabled);
    ReadBoolShown(r.dpaAcknowledged);
    hide AreCasts, Value, ReadTime, ReadBool, ShowTime, ShowBool, WriteAi;
  }

  /**
   * Which rows of the AI configuration survive: those with a provider, a model and a deployment
   * mode, and no record of who acknowledged or updated.
   */
  lemma AiRowSurvives(c: Casts, r: AiRow)
    requires AreCasts(c) && IsAiRow(r)
    ensures Survives(AiCodec(c), r) <==>
            r.provider != "" && r.model != "" && r.deploymentMode != "" && r.dpaAcknowledgedBy == None
            && r.updatedBy == None
  {
    hide ReadAi, WriteAi;
    forall s: Settings ensures AiCodec(c).read(s + AiCodec(c).write(r)) == Some(AiRowAgain(r)) {
      ReadWrittenAi(c, s, r);
    }
    if Survives(AiCodec(c), r) {
      var s: Settings := map[];
      assert AiCodec(c).read(s + AiCodec(c).write(r)) == Some(r);
    }
  }

  /** Every row of the SMTP configuration survives. */
  lemma SmtpRowSurvives(c: Casts, r: SmtpRow)
    requires AreCasts(c) && IsSmtpRow(r)
    ensures Survives(SmtpCodec(c), r)
  {
    forall s: Settings ensures ReadSmtp(c, s + WriteSmtp(c, r)) == Some(r) { ReadWrittenSmtp(c, s, r); }
  }

  lemma ReadWrittenSmtp(c: Casts, s: Settings, r: SmtpRow)
    requires AreCasts(c) && IsSmtpRow(r)
    ensures ReadSmtp(c, s + WriteSmtp(c, r)) == Some(r)
  {
    ReadBoolShown(r.enabled);
    assert c.ofInteger(r.port) != "" && c.toInteger(c.ofInteger(r.port)) == Some(r.port);
    var w := s + WriteSmtp(c, r);
    assert Value(w, SmtpHost) == Some(r.host) && Value(w, SmtpUser) == Some(r.username);
    assert Value(w, SmtpPort) == Some(c.ofInteger(r.port)) && Value(w, SmtpEnabled) == Some(ShowBool(r.enabled));
    assert Value(w, SmtpPassEncrypted) == Some(r.passEncrypted);
    hide AreCasts, Value, ReadBool, ShowBool, WriteSmtp;
  }

  lemma AreCodecs(c: Casts)
    ensures IsCodec(AiCodec(c)) && IsCodec(SmtpCodec(c))
  {
    forall s, t: Settings | forall k :: k in AI_KEYS ==> Value(s, k) == Value(t, k)
      ensures ReadAi(c, s) == ReadAi(c, t)
    {
    }
    forall s, t: Settings | forall k :: k in SMTP_KEYS ==> Value(s, k) == Value(t, k)
      ensures ReadSmtp(c, s) == ReadSmtp(c, t)
    {
    }
    forall r ensures WriteAi(c, r).Keys == AI_KEYS { }
    forall r ensures WriteSmtp(c, r).Keys == SMTP_KEYS { }
  }

  /** A row that `up` has read always survives. */
  lemma ReadRowsSurvive(c: Casts, s: Settings)
    requires AreCasts(c)
    ensures ReadAi(c, s).Some? ==> Survives(AiCodec(c), ReadAi(c, s).value)
    ensures ReadSmtp(c, s).Some? ==> Survives(SmtpCodec(c), ReadSmtp(c, s).value)
  {
    if ReadAi(c, s).Some? {
      ReadAiIsRow(c, s);
      AiRowSurvives(c, ReadAi(c, s).value);
    }
    if ReadSmtp(c, s).Some? { SmtpRowSurvives(c, ReadSmtp(c, s).value); }
  }

  lemma ReadAiIsRow(c: Casts, s: Settings)
    requires ReadAi(c, s).Some?
    ensures var r := ReadAi(c, s).value;
            && IsAiRow(r) && r.provider != "" && r.model != "" && r.deploymentMode != ""
            && r.dpaAcknowledgedBy == None && r.updatedBy == None
  {
    FitKeeps(50, Or(NonEmpty(Value(s, AiProvider)), "anthropic"));
    FitKeeps(100, Or(NonEmpty(Value(s, AiModel)), "claude-sonnet-4-20250514"));
    FitKeeps(30, Or(NonEmpty(Value(s, AiDeploymentMode)), "cloud_api"));
    hide Fit, ReadTime, ReadBool, Value;
  }

  /** Cutting off spaces past the width leaves no text empty that was not. */
  lemma FitKeeps(n: nat, s: string)
    requires n > 0 && s != ""
    ensures Fit(n, s).Some? ==> Fit(n, s).value != "" && |Fit(n, s).value| <= n
  {
  }

  /**
   * `up`, `down`, `up`: the row of the first time, none of the migrated keys left and every other
   * setting as it was at the start.
   */
  lemma UpDownUp<Row(!new)>(codec: Codec<Row>, start: Settings, row: Row)
    requires IsCodec(codec) && codec.read(start) == Some(row) && Survives(codec, row)
    ensures var once := start - codec.keys;
            var back := AfterDown(codec, once, [row]);
            && codec.read(back) == Some(row)
            && back - codec.keys == once
            && back.Keys == start.Keys + codec.keys
            && forall k :: k in start && k !in codec.keys ==> back[k] == start[k]
  {
  }

  /** Both migrations, from any settings on which `up` succeeds. */
  lemma ConfigurationsRoundTrip(c: Casts, start: Settings)
    requires AreCasts(c)
    ensures ReadAi(c, start).Some? ==>
              var back := AfterDown(AiCodec(c), start - AI_KEYS, [ReadAi(c, start).value]);
              ReadAi(c, back) == ReadAi(c, start) && back - AI_KEYS == start - AI_KEYS
    ensures ReadSmtp(c, start).Some? ==>
              var back := AfterDown(SmtpCodec(c), start - SMTP_KEYS, [ReadSmtp(c, start).value]);
              ReadSmtp(c, back) == ReadSmtp(c, start) && back - SMTP_KEYS == start - SMTP_KEYS
  {
    AreCodecs(c);
    ReadRowsSurvive(c, start);
    hide ReadAi, WriteAi, ReadSmtp, WriteSmtp;
    if ReadAi(c, start).Some? { UpDownUp(AiCodec(c), start, ReadAi(c, start).value); }
    if ReadSmtp(c, start).Some? { UpDownUp(SmtpCodec(c), start, ReadSmtp(c, start).value); }
  }

  /** Without any of the keys, what is read is the row the fallback insert would have made. */
  lemma MissingKeysGiveColumnDefaults(c: Casts, s: Settings)
    requires c.toInteger("587") == Some(587)
    ensures (forall k :: k in AI_KEYS ==> k !in s) ==> ReadAi(c, s) == Some(AI_COLUMN_DEFAULTS)
    ensures (forall k :: k in SMTP_KEYS ==> k !in s) ==> ReadSmtp(c, s) == Some(SMTP_COLUMN_DEFAULTS)
  {
    if forall k :: k in AI_KEYS ==> k !in s {
      assert Value(s, AiProvider) == None && Value(s, AiModel) == None && Value(s, AiDeploymentMode) == None;
    }
    if forall k :: k in SMTP_KEYS ==> k !in s { assert Value(s, SmtpPort) == None; }
  }
}
