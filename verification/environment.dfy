/**
 * The environment of the app: the box identity that addresses the native file
 * picker, the fallback derived from the page's hostname, and the current user
 * (app/web/js/environment-manager.js; app.js repeats the same rules).
 *
 * A JavaScript `boxName` that is undefined, null or empty is modelled as "".
 */
module Environment {
  import opened Wrappers
  import opened Strings
  import opened Events

  /** The `lazycatEnv` object. */
  datatype Env = Env(boxName: string, boxDomain: string, appDomain: string, appId: string, filePickerDomain: string)

  /** The `currentUser` object. */
  datatype User = User(id: string, name: string, role: string)

  const AppId: string := "cloud.lazycat.app.filepickertest"

  /** The user installed when the user-info request fails or answers with an error status. */
  const DefaultUser: User := User("default", "Default User", "USER")

  /** The address of the native picker's backend for a box. */
  function PickerDomain(boxName: string): string
  {
    "https://file." + boxName + ".heiyu.space"
  }

  /** The picker address determines the box it was built for. */
  lemma PickerDomainInjective(a: string, b: string)
    requires PickerDomain(a) == PickerDomain(b)
    ensures a == b
  {
    var pa, pb := PickerDomain(a), PickerDomain(b);
    assert |a| == |b|;
    assert a == pa[13..13 + |a|];
    assert b == pb[13..13 + |b|];
  }

  /** The box-name check of loadLazycatEnvironment: present and not the text 'undefined'. */
  predicate BoxNameValid(boxName: string)
  {
    boxName != "" && boxName != "undefined"
  }

  /** The guard of createPicker and testConnection: an environment with a truthy box name. */
  predicate HasBox(env: Option<Env>)
  {
    env.Some? && env.value.boxName != ""
  }

  /**
   * useDefaultEnvironment's rule: with at least three dot-separated labels the second
   * label is the box name, the box domain is everything after the first label, and the
   * picker address is built from the box name; otherwise there is no environment.
   */
  function DefaultEnv(hostname: string): (r: Option<Env>)
    ensures r.Some? <==> |Split(hostname, '.')| >= 3
    ensures r.Some? ==>
      var parts := Split(hostname, '.');
      && r.value.boxName == parts[1]
      && '.' !in r.value.boxName
      && hostname == parts[0] + "." + r.value.boxDomain
      && r.value.boxDomain == parts[1] + "." + Join(parts[2..], '.')
      && r.value.appDomain == hostname
      && r.value.appId == AppId
      && r.value.filePickerDomain == PickerDomain(parts[1])
  {
    var parts := Split(hostname, '.');
    if |parts| >= 3 then
      var boxName := parts[1];
      var domain := Join(parts[2..], '.');
      JoinSplit(hostname, '.');
      JoinTail(parts, '.');
      JoinTail(parts[1..], '.');
      assert parts[1..][1..] == parts[2..];
      Some(Env(boxName, boxName + "." + domain, hostname, AppId, PickerDomain(boxName)))
    else
      None
  }

  /** A hostname shaped `<app>.<box>.<domain>` yields `<box>` and `<box>.<domain>`. */
  lemma DefaultEnvOfLabels(app: string, box: string, domain: string)
    requires '.' !in app && '.' !in box && '.' !in domain
    ensures var r := DefaultEnv(app + "." + box + "." + domain);
      r.Some? && r.value.boxName == box && r.value.boxDomain == box + "." + domain
      && r.value.filePickerDomain == PickerDomain(box)
  {
    var parts := [app, box, domain];
    assert Join(parts[2..], '.') == domain;
    assert Join(parts[1..], '.') == box + "." + domain;
    assert Join(parts, '.') == app + "." + box + "." + domain;
    SplitJoin(parts, '.');
  }

  /** The reply to GET /api/lazycat-env, as fetch/json deliver it. */
  datatype EnvResponse =
    | EnvRequestFailed                                        // fetch or JSON parsing threw
    | EnvHttpError(status: nat)                               // !response.ok
    | EnvBody(success: bool, environment: Option<Env>)        // parsed body

  /** The reply to GET /api/user-info. */
  datatype UserResponse =
    | UserRequestFailed                                       // fetch or JSON parsing threw
    | UserHttpError(status: nat)                              // !response.ok
    | UserBody(user: Option<User>)                            // parsed body's `user`

  /** What loadUserInfo installs for a reply: the reply's user, or the default user on any failure. */
  function UserAfter(resp: UserResponse): (u: Option<User>)
    ensures !resp.UserBody? ==> u == Some(DefaultUser)
    ensures resp.UserBody? ==> u == resp.user
  {
    match resp
    case UserBody(user) => user
    case _ => Some(DefaultUser)
  }

  /** Payload of the manager's events. */
  datatype EnvPayload = Loaded(env: Env) | EnvError

  /** What testConnection returns. */
  datatype Connection = Connection(testUrl: string, boxName: string)

  /** The outcome of an async operation: fulfilled or rejected. */
  datatype Settled<T> = Fulfilled(value: T) | Rejected

  class EnvironmentManager {
    /** `lazycatEnv`. */
    var env: Option<Env>
    /** `currentUser`. */
    var user: Option<User>
    /** `eventListeners` with on/emit. */
    const bus: EventBus<EnvPayload>

    constructor ()
      ensures env.None? && user.None?
      ensures fresh(bus) && bus.listeners == map[] && bus.emitted == [] && bus.delivered == []
    {
      env := None;
      user := None;
      bus := new EventBus();
    }

    method On(e: string, cb: Listener)
      modifies bus
      ensures bus.listeners == Register(old(bus.listeners), e, cb)
      ensures bus.emitted == old(bus.emitted) && bus.delivered == old(bus.delivered)
    {
      bus.On(e, cb);
    }

    /**
     * loadLazycatEnvironment: a successful body is installed before its box name is
     * checked, so an environment rejected for its box name stays installed.
     */
    method LoadLazycatEnvironment(resp: EnvResponse) returns (r: Settled<Env>)
      modifies this
      ensures user == old(user)
      ensures resp.EnvBody? && resp.success ==> env == resp.environment
      ensures !(resp.EnvBody? && resp.success) ==> env == old(env)
      ensures r.Fulfilled? <==> resp.EnvBody? && resp.success && resp.environment.Some? && BoxNameValid(resp.environment.value.boxName)
      ensures r.Fulfilled? ==> env == Some(r.value)
    {
      match resp
      case EnvBody(success, environment) =>
        if !success {
          return Rejected;
        }
        env := environment;
        if environment.None? || !BoxNameValid(environment.value.boxName) {
          return Rejected;
        }
        return Fulfilled(environment.value);
      case _ =>
        return Rejected;
    }

    /** loadUserInfo: never rejects; any failure installs the default user. */
    method LoadUserInfo(resp: UserResponse) returns (u: Option<User>)
      modifies this
      ensures env == old(env)
      ensures user == UserAfter(resp) && u == user
    {
      if resp.UserBody? {
        user := resp.user;
      } else {
        user := Some(DefaultUser);
      }
      u := user;
    }

    /** useDefaultEnvironment: derive the environment from the page's hostname, or report an error. */
    method UseDefaultEnvironment(hostname: string)
      modifies this, bus
      ensures user == old(user) && bus.listeners == old(bus.listeners)
      ensures DefaultEnv(hostname).Some? ==>
        && env == DefaultEnv(hostname)
        && bus.emitted == old(bus.emitted) + [Emission("environmentLoaded", Loaded(env.value))]
        && bus.delivered == old(bus.delivered) + Dispatch(old(bus.listeners), "environmentLoaded", Loaded(env.value))
      ensures DefaultEnv(hostname).None? ==>
        && env == old(env)
        && bus.emitted == old(bus.emitted) + [Emission("environmentError", EnvError)]
        && bus.delivered == old(bus.delivered) + Dispatch(old(bus.listeners), "environmentError", EnvError)
    {
      var d := DefaultEnv(hostname);
      if d.Some? {
        env := d;
        bus.Emit("environmentLoaded", Loaded(d.value));
      } else {
        bus.Emit("environmentError", EnvError);
      }
    }

    /**
     * loadEnvironment: loads the environment and the user side by side; with listeners
     * that return normally, only a failed environment load falls back to the hostname,
     * and the user load never interferes.
     */
    method LoadEnvironment(envResp: EnvResponse, userResp: UserResponse, hostname: string)
      modifies this, bus
      ensures user == UserAfter(userResp)
      ensures bus.listeners == old(bus.listeners)
      ensures EnvLoadSucceeds(envResp) ==>
        && env == envResp.environment
        && bus.emitted == old(bus.emitted) + [Emission("environmentLoaded", Loaded(env.value))]
        && bus.delivered == old(bus.delivered) + Dispatch(old(bus.listeners), "environmentLoaded", Loaded(env.value))
      ensures !EnvLoadSucceeds(envResp) && DefaultEnv(hostname).Some? ==>
        && env == DefaultEnv(hostname)
        && bus.emitted == old(bus.emitted) + [Emission("environmentLoaded", Loaded(env.value))]
        && bus.delivered == old(bus.delivered) + Dispatch(old(bus.listeners), "environmentLoaded", Loaded(env.value))
      ensures !EnvLoadSucceeds(envResp) && DefaultEnv(hostname).None? ==>
        && env == (if envResp.EnvBody? && envResp.success then envResp.environment else old(env))
        && bus.emitted == old(bus.emitted) + [Emission("environmentError", EnvError)]
        && bus.delivered == old(bus.delivered) + Dispatch(old(bus.listeners), "environmentError", EnvError)
    {
      var envResult := LoadLazycatEnvironment(envResp);
      var _ := LoadUserInfo(userResp);
      if envResult.Fulfilled? {
        bus.Emit("environmentLoaded", Loaded(env.value));
      } else {
        UseDefaultEnvironment(hostname);
      }
    }

    /** testConnection: the picker address for the current box, or an error when there is no box name. */
    method TestConnection() returns (r: Result<Connection>)
      ensures r.Ok? <==> HasBox(env)
      ensures r.Ok? ==> r.value == Connection(PickerDomain(env.value.boxName), env.value.boxName)
    {
      if env.None? || env.value.boxName == "" {
        return Err;
      }
      return Ok(Connection(PickerDomain(env.value.boxName), env.value.boxName));
    }
  }

  /** The environment request is fulfilled: a successful body with a valid box name. */
  predicate EnvLoadSucceeds(resp: EnvResponse)
  {
    resp.EnvBody? && resp.success && resp.environment.Some? && BoxNameValid(resp.environment.value.boxName)
  }

  /** A thrown error or a value. */
  datatype Result<T> = Ok(value: T) | Err
}
