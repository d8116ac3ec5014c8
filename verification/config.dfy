/** The user configuration: the dictionary read from the YAML file, its
    validation, and the intermediate representation built from it. */
module UserConfig {
  import opened Wrappers

  /** One entry of the `users` list: a dictionary expected to hold `id` and `pw`. */
  type UserDict = map<string, string>

  /** The configuration dictionary, reduced to the two keys the program
      reads; `None` means the key is absent. Other keys are never looked at. */
  datatype ConfigDict = ConfigDict(
    users: Option<seq<UserDict>>,
    blockedAuthorNames: Option<seq<string>>)

  /** The exception building raises on a malformed dictionary. */
  datatype BuildError =
    | MissingKey(key: string)   // KeyError
    | NoFirstUser               // IndexError on `users[0]`

  /** `UserConfigIR`: login credentials (`None` until set) and the blocked
      author names as a set. */
  datatype UserConfigIR = UserConfigIR(
    userId: Option<string>,
    userPw: Option<string>,
    blockedAuthorNameSet: set<string>)

  /** `UserConfigIR()`: no credentials yet and no blocked author. */
  function NewUserConfigIR(): (r: UserConfigIR)
    ensures r.userId.None? && r.userPw.None?
    ensures forall n :: n !in r.blockedAuthorNameSet
  {
    UserConfigIR(None, None, {})
  }

  predicate HasCredentials(user: UserDict) {
    "id" in user && "pw" in user
  }

  /** What validation accepts: a non-empty `users` list every entry of which
      has both credentials. */
  predicate ValidUserConfig(c: ConfigDict) {
    && c.users.Some?
    && |c.users.value| > 0
    && forall i :: 0 <= i < |c.users.value| ==> HasCredentials(c.users.value[i])
  }

  /** `is_valid_user_config`: the check run before anything is built, with
      its early returns. */
  method IsValidUserConfig(c: ConfigDict) returns (ok: bool)
    ensures ok <==> ValidUserConfig(c)
  {
    if c.users.None? {
      return false;
    }
    var users := c.users.value;
    if |users| <= 0 {
      return false;
    }
    var i := 0;
    while i < |users|
      invariant 0 <= i <= |users|
      invariant forall j :: 0 <= j < i ==> HasCredentials(users[j])
    {
      if "id" !in users[i] {
        return false;
      }
      if "pw" !in users[i] {
        return false;
      }
      i := i + 1;
    }
    return true;
  }

  /** `update_blocked_author_name_set`: the name becomes blocked and nothing
      else about the configuration changes. */
  function UpdateBlockedAuthorNameSet(ir: UserConfigIR, name: string): (r: UserConfigIR)
    ensures name in r.blockedAuthorNameSet
    ensures forall n :: n != name ==> (n in r.blockedAuthorNameSet <==> n in ir.blockedAuthorNameSet)
    ensures r.userId == ir.userId && r.userPw == ir.userPw
  {
    ir.(blockedAuthorNameSet := ir.blockedAuthorNameSet + {name})
  }

  /** The loop over `blocked_author_names`, one update per name in list order. */
  function AddBlockedAuthorNames(ir: UserConfigIR, names: seq<string>): (r: UserConfigIR)
    ensures forall n :: n in r.blockedAuthorNameSet <==> n in ir.blockedAuthorNameSet || n in names
    ensures r.userId == ir.userId && r.userPw == ir.userPw
    decreases names
  {
    if names == [] then ir
    else AddBlockedAuthorNames(UpdateBlockedAuthorNameSet(ir, names[0]), names[1..])
  }

  /** The IR building at the start of the module-level `poll_and_write_bbs`:
      credentials from the first user, blocked names from
      `blocked_author_names`, and the exception raised when a key or the
      first user is missing. */
  function BuildUserConfigIR(c: ConfigDict): (r: Result<UserConfigIR, BuildError>)
    ensures r.Success? <==>
              && c.users.Some? && |c.users.value| > 0 && HasCredentials(c.users.value[0])
              && c.blockedAuthorNames.Some?
    ensures r.Success? ==>
              && r.value.userId == Some(c.users.value[0]["id"])
              && r.value.userPw == Some(c.users.value[0]["pw"])
              && forall n :: n in r.value.blockedAuthorNameSet <==> n in c.blockedAuthorNames.value
  {
    if c.users.None? then Failure(MissingKey("users"))
    else if |c.users.value| == 0 then Failure(NoFirstUser)
    else
      var first := c.users.value[0];
      if "id" !in first then Failure(MissingKey("id"))
      else if "pw" !in first then Failure(MissingKey("pw"))
      else if c.blockedAuthorNames.None? then Failure(MissingKey("blocked_author_names"))
      else
        var ir := NewUserConfigIR().(userId := Some(first["id"]), userPw := Some(first["pw"]));
        Success(AddBlockedAuthorNames(ir, c.blockedAuthorNames.value))
  }

  /** On a configuration validation accepts, building can fail only because
      `blocked_author_names` is absent: validation never looks at that key. */
  lemma ValidConfigBuildsUnlessNamesMissing(c: ConfigDict)
    requires ValidUserConfig(c)
    ensures BuildUserConfigIR(c).Success? <==> c.blockedAuthorNames.Some?
    ensures BuildUserConfigIR(c).Failure? ==> BuildUserConfigIR(c).error == MissingKey("blocked_author_names")
  {
  }

  /** A configuration that validation accepts and building rejects. */
  lemma ValidationDoesNotImplyBuild()
    ensures exists c :: ValidUserConfig(c) && BuildUserConfigIR(c).Failure?
  {
    var c := ConfigDict(Some([map["id" := "me", "pw" := "secret"]]), None);
    assert HasCredentials(c.users.value[0]);
    assert ValidUserConfig(c);
  }

  /** The blocked set has set semantics: lists naming the same authors, in any
      order and with any repetition, build the same configuration. */
  lemma BuildIgnoresOrderAndRepetition(c: ConfigDict, d: ConfigDict)
    requires c.users == d.users
    requires c.blockedAuthorNames.Some? && d.blockedAuthorNames.Some?
    requires forall n :: n in c.blockedAuthorNames.value <==> n in d.blockedAuthorNames.value
    ensures BuildUserConfigIR(c) == BuildUserConfigIR(d)
  {
    var rc := BuildUserConfigIR(c);
    var rd := BuildUserConfigIR(d);
    if rc.Success? {
      assert rc.value.blockedAuthorNameSet == rd.value.blockedAuthorNameSet;
    }
  }

  /** What `main` does with the configuration before polling starts. */
  datatype Startup =
    | Rejected                    // validation failed; an error is logged
    | Crashed(error: BuildError)  // building raised
    | Polling(ir: UserConfigIR)   // the poller runs with this configuration

  method Start(c: ConfigDict) returns (s: Startup)
    ensures s.Rejected? <==> !ValidUserConfig(c)
    ensures s.Crashed? <==> ValidUserConfig(c) && c.blockedAuthorNames.None?
    ensures s.Polling? ==> BuildUserConfigIR(c) == Success(s.ir)
  {
    var ok := IsValidUserConfig(c);
    if !ok {
      return Rejected;
    }
    match BuildUserConfigIR(c)
    case Failure(e) => s := Crashed(e);
    case Success(ir) => s := Polling(ir);
  }
}
