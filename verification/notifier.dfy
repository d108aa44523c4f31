/** The notifier's entry point (`main`, line_notifier.py, lines 88-137): a
    sequence of guards over the process configuration and the latest
    snapshot, each of which ends the run before anything is pushed, followed
    by one broadcast of a fixed text and a fixed image URL to every
    configured recipient. Environment variables, the snapshot file and the
    push endpoint are inputs: the run is a pure function of them. */
module Notifier {
  import opened Wrappers
  import opened Recipients
  import opened Push

  /** The environment variables `main` reads; `None` is an unset variable. */
  datatype Env = Env(
    lineChannelAccessToken: Option<string>,
    lineUserIds: Option<string>,
    githubUsername: Option<string>,
    githubRepo: Option<string>)

  /** A value in the snapshot document, as far as `main` looks at it. */
  datatype JsonValue =
    | JString(s: string)
    | JNonString            // null, a number, a boolean, an array or an object

  /** What `load_latest_data` returns when the file exists and parses: the
      top-level JSON value, an object or something else (with Python's
      truth value of that something else). */
  datatype Snapshot =
    | JObject(fields: map<string, JsonValue>)
    | JNonObject(truthy: bool)

  const DefaultGithubUsername: string := "Rioto3"
  const DefaultGithubRepo: string := "izumigatake-snow"

  /** The text pushed to every recipient. */
  const NotificationText: string := "ほれい！雪積もってるか？？"

  /** The image pushed to every recipient: a fixed URL, whatever the snapshot holds. */
  const ImageUrl: string :=
    "https://github.com/Rioto3/izumigatake-snow-monitoring/blob/main/data/images/full_screenshot.png?raw=true"

  /** `os.getenv(name, default)`: the variable's value when it is set, even
      to the empty string, and `default` only when it is not set at all. */
  function Getenv(v: Option<string>, default: string): string {
    if v.Some? then v.value else default
  }

  /** Python's truth value of an optional string: set and non-empty. */
  predicate IsSet(v: Option<string>) {
    v.Some? && v.value != []
  }

  /** The recipients `main` pushes to: `LINE_USER_IDS`, empty when unset, parsed. */
  function ConfiguredRecipients(env: Env): (ids: seq<string>)
    ensures forall j :: 0 <= j < |ids| ==> IsRecipientId(ids[j])
    ensures ids == [] <==> OnlyCommasAndSpaces(Getenv(env.lineUserIds, ""))
  {
    ParsedIdsWellFormed(Getenv(env.lineUserIds, ""));
    ParseEmptyIff(Getenv(env.lineUserIds, ""));
    ParseRecipients(Getenv(env.lineUserIds, ""))
  }

  /** Both GitHub settings are non-empty once their defaults apply. */
  predicate GithubConfigured(env: Env) {
    Getenv(env.githubUsername, DefaultGithubUsername) != []
    && Getenv(env.githubRepo, DefaultGithubRepo) != []
  }

  /** `if not data`: an empty object, `null`, `false`, `0`, `""` and `[]` are all falsy. */
  predicate Truthy(doc: Snapshot) {
    match doc
    case JObject(fields) => |fields| > 0
    case JNonObject(truthy) => truthy
  }

  /** `os.path.relpath(data['image_path'], './')` returns instead of raising:
      the document is an object, has the key, and its value is a non-empty string. */
  predicate ImagePathUsable(doc: Snapshot) {
    doc.JObject? && "image_path" in doc.fields
    && doc.fields["image_path"].JString? && doc.fields["image_path"].s != []
  }

  /** The two reads past the token check that a run can reach: the recipient
      setting and the snapshot file, in the order `main` performs them. */
  datatype Stage = ReadRecipients | LoadedSnapshot

  /** How a run of `main` ends. */
  datatype Outcome =
    | TokenMissing
    | RecipientsMissing
    | GithubConfigMissing
    | SnapshotMissing
    | ImagePathRaised                               // an uncaught exception ends the process
    | Finished(success: bool, recipientCount: nat)

  /** A run: how it ended, which of the two reads it reached, and every push request it sent. */
  datatype Run = Run(outcome: Outcome, stages: seq<Stage>, sent: seq<Payload>)

  /** One run of `main`, given the environment, the result of
      `load_latest_data` and the push endpoint's answer to each request. */
  function RunNotifier(env: Env, latest: Option<Snapshot>, post: (nat, Payload) -> Response): (run: Run)
    // A missing or empty token stops the run before the recipients are read.
    ensures run.outcome == TokenMissing <==> !IsSet(env.lineChannelAccessToken)
    ensures run.outcome == TokenMissing ==> run.stages == [] && run.sent == []
    // An empty recipient list stops the run before the snapshot is loaded.
    ensures run.outcome == RecipientsMissing <==>
      IsSet(env.lineChannelAccessToken) && ConfiguredRecipients(env) == []
    ensures run.outcome == RecipientsMissing ==> run.stages == [ReadRecipients] && run.sent == []
    // The snapshot is loaded only once the configuration checks have passed.
    ensures LoadedSnapshot in run.stages <==>
      IsSet(env.lineChannelAccessToken) && ConfiguredRecipients(env) != [] && GithubConfigured(env)
    // An empty GitHub setting is a logged return before the snapshot is loaded.
    ensures run.outcome == GithubConfigMissing <==>
      IsSet(env.lineChannelAccessToken) && ConfiguredRecipients(env) != [] && !GithubConfigured(env)
    // A missing or falsy snapshot is a logged return.
    ensures run.outcome == SnapshotMissing <==>
      && IsSet(env.lineChannelAccessToken) && ConfiguredRecipients(env) != [] && GithubConfigured(env)
      && (latest.None? || !Truthy(latest.value))
    // A truthy snapshot without a usable `image_path` raises at line 121.
    ensures run.outcome == ImagePathRaised <==>
      && IsSet(env.lineChannelAccessToken) && ConfiguredRecipients(env) != [] && GithubConfigured(env)
      && latest.Some? && Truthy(latest.value) && !ImagePathUsable(latest.value)
    // Nothing is pushed unless every guard passed.
    ensures run.outcome.Finished? <==>
      && IsSet(env.lineChannelAccessToken)
      && ConfiguredRecipients(env) != []
      && GithubConfigured(env)
      && latest.Some? && Truthy(latest.value)
      && ImagePathUsable(latest.value)
    ensures !run.outcome.Finished? ==> run.sent == []
    ensures latest.None? ==> run.sent == []
    // A finished run pushed the fixed text and image to every configured recipient, in order.
    ensures run.outcome.Finished? ==>
      && AttemptedIds(run.sent) == ConfiguredRecipients(env)
      && run.outcome.recipientCount == |ConfiguredRecipients(env)|
      && (forall i :: 0 <= i < |run.sent| ==>
            ReadPushPayload(run.sent[i])
              == Some(PushFields(ConfiguredRecipients(env)[i], NotificationText, ImageUrl)))
      && (run.outcome.success <==> forall i :: 0 <= i < |run.sent| ==> Accepted(post, i, run.sent[i]))
  {
    if !IsSet(env.lineChannelAccessToken) then Run(TokenMissing, [], [])
    else
      var userIds := ConfiguredRecipients(env);
      if userIds == [] then Run(RecipientsMissing, [ReadRecipients], [])
      else if !GithubConfigured(env) then Run(GithubConfigMissing, [ReadRecipients], [])
      else if latest.None? || !Truthy(latest.value) then
        Run(SnapshotMissing, [ReadRecipients, LoadedSnapshot], [])
      else if !ImagePathUsable(latest.value) then
        Run(ImagePathRaised, [ReadRecipients, LoadedSnapshot], [])
      else
        var b := SendToAllUsers(userIds, NotificationText, ImageUrl, post);
        Run(Finished(b.success, |userIds|), [ReadRecipients, LoadedSnapshot], b.sent)
  }

  /** What gets pushed does not depend on the snapshot's contents: any two
      snapshots that let the run finish give the same run. */
  lemma RunIgnoresSnapshotContents(env: Env, a: Snapshot, b: Snapshot, post: (nat, Payload) -> Response)
    requires RunNotifier(env, Some(a), post).outcome.Finished?
    requires RunNotifier(env, Some(b), post).outcome.Finished?
    ensures RunNotifier(env, Some(a), post) == RunNotifier(env, Some(b), post)
  {
  }

  /** A recipient setting made only of commas and whitespace (or unset)
      ends the run before the snapshot is loaded, and nothing is pushed. */
  lemma BlankRecipientsSendNothing(env: Env, latest: Option<Snapshot>, post: (nat, Payload) -> Response)
    requires IsSet(env.lineChannelAccessToken)
    requires OnlyCommasAndSpaces(Getenv(env.lineUserIds, ""))
    ensures RunNotifier(env, latest, post).outcome == RecipientsMissing
    ensures RunNotifier(env, latest, post).stages == [ReadRecipients]
    ensures RunNotifier(env, latest, post).sent == []
  {
    ParseEmptyIff(Getenv(env.lineUserIds, ""));
  }

  /** End to end: when `LINE_USER_IDS` is well-formed identifiers joined
      with commas and every guard passes, each of those identifiers gets
      exactly one push, in the configured order. */
  lemma JoinedRecipientsAllReached(env: Env, ids: seq<string>, latest: Snapshot,
                                   post: (nat, Payload) -> Response)
    requires IsSet(env.lineChannelAccessToken) && GithubConfigured(env)
    requires Truthy(latest) && ImagePathUsable(latest)
    requires ids != [] && forall j :: 0 <= j < |ids| ==> IsRecipientId(ids[j])
    requires env.lineUserIds == Some(Join(ids, ','))
    ensures RunNotifier(env, Some(latest), post).outcome.Finished?
    ensures AttemptedIds(RunNotifier(env, Some(latest), post).sent) == ids
  {
    ConfiguredJoined(env, ids);
    FinishedRunReachesConfigured(env, latest, post);
  }

  /** A setting of well-formed identifiers joined by commas configures exactly them. */
  lemma ConfiguredJoined(env: Env, ids: seq<string>)
    requires forall j :: 0 <= j < |ids| ==> IsRecipientId(ids[j])
    requires env.lineUserIds == Some(Join(ids, ','))
    ensures ConfiguredRecipients(env) == ids
  {
    ParseJoin(ids);
  }

  /** Once every guard passes, the run finishes and pushes to the configured
      recipients in order. */
  lemma FinishedRunReachesConfigured(env: Env, latest: Snapshot, post: (nat, Payload) -> Response)
    requires IsSet(env.lineChannelAccessToken) && GithubConfigured(env)
    requires Truthy(latest) && ImagePathUsable(latest)
    requires ConfiguredRecipients(env) != []
    ensures RunNotifier(env, Some(latest), post).outcome.Finished?
    ensures AttemptedIds(RunNotifier(env, Some(latest), post).sent) == ConfiguredRecipients(env)
  {
  }
}
