/**
 * ListeningAppsTable: the applications registered with the node, by application id. update records
 * a registration, clean drops the applications inactive for the expiration time, getAppIds lists
 * the ids and getApp returns one application.
 */
module ListeningAppsTable {
  import opened Wire
  import opened Table

  /** An application; lastActivity is the steady_clock reading of its last activity. */
  datatype App = App(appId: Id, appAddress: seq<byte>, appPort: uint16, socket: int, lastActivity: int)

  /** The exception getApp throws for an absent id ("App not found"). */
  datatype AppsTableError = AppNotFound

  function ActivityOf(a: App): int
  {
    a.lastActivity
  }

  /**
   * What update makes of the table: a present app takes the new address and port and restarts its
   * activity at now, keeping its id and socket; an absent one is created.
   */
  function Registered(apps: map<Id, App>, appId: Id, appAddress: seq<byte>, appPort: uint16, socket: int, now: int): (r: map<Id, App>)
    ensures r.Keys == apps.Keys + {appId}
    ensures r[appId].appAddress == appAddress && r[appId].appPort == appPort && r[appId].lastActivity == now
    ensures appId in apps ==> r[appId].appId == apps[appId].appId && r[appId].socket == apps[appId].socket
    ensures appId !in apps ==> r[appId] == App(appId, appAddress, appPort, socket, now)
    ensures forall k | k in apps && k != appId :: r[k] == apps[k]
  {
    if appId in apps then
      apps[appId := apps[appId].(appAddress := appAddress, appPort := appPort, lastActivity := now)]
    else
      apps[appId := App(appId, appAddress, appPort, socket, now)]
  }

  class ListeningAppsTable {
    var listeningApps: map<Id, App>

    constructor()
      ensures listeningApps == map[]
    {
      listeningApps := map[];
    }

    /** Every app is stored under its own id. */
    predicate Valid()
      reads this
    {
      forall k | k in listeningApps :: listeningApps[k].appId == k
    }

    /** update: a present app's update, or a new app. */
    method Update(appId: Id, appAddress: seq<byte>, appPort: uint16, socket: int, now: int)
      modifies this
      ensures listeningApps == Registered(old(listeningApps), appId, appAddress, appPort, socket, now)
      ensures old(Valid()) ==> Valid()
    {
      if appId in listeningApps {
        var app := listeningApps[appId];
        listeningApps := listeningApps[appId := app.(appAddress := appAddress, appPort := appPort, lastActivity := now)];
      } else {
        listeningApps := listeningApps[appId := App(appId, appAddress, appPort, socket, now)];
      }
    }

    /** clean: every app whose elapsed time has reached the expiration time is erased. */
    method Clean(expirationTime: int32, now: int)
      modifies this
      ensures listeningApps == Unexpired(old(listeningApps), ActivityOf, expirationTime, now)
      ensures old(Valid()) ==> Valid()
    {
      var todo := listeningApps.Keys;
      while todo != {}
        invariant todo <= old(listeningApps).Keys
        invariant forall k :: k in listeningApps <==> k in old(listeningApps) && (k in todo || !Expired(old(listeningApps)[k].lastActivity, expirationTime, now))
        invariant forall k | k in listeningApps :: listeningApps[k] == old(listeningApps)[k]
        decreases |todo|
      {
        var k :| k in todo;
        if Expired(listeningApps[k].lastActivity, expirationTime, now) {
          listeningApps := listeningApps - {k};
        }
        todo := todo - {k};
      }
    }

    /** getAppIds: every app id once, ascending. */
    method GetAppIds() returns (keys: seq<Id>)
      ensures Ascending(keys) && |keys| == |listeningApps|
      ensures forall k :: k in keys <==> k in listeningApps
    {
      keys := KeysInOrder(listeningApps);
    }

    /** getApp: the stored app, or ListeningAppsTableException for an absent id. */
    method GetApp(appId: Id) returns (r: Result<App, AppsTableError>)
      ensures r.Ok? <==> appId in listeningApps
      ensures r.Ok? ==> r.value == listeningApps[appId]
      ensures r.Err? ==> r.error == AppNotFound
    {
      if appId in listeningApps {
        r := Ok(listeningApps[appId]);
      } else {
        r := Err(AppNotFound);
      }
    }
  }

  // ----- Properties -----

  /** An app that registers again is not erased by a clean at the same reading, whatever the expiration time above 0. */
  lemma RegisteredSurvivesClean(apps: map<Id, App>, appId: Id, appAddress: seq<byte>, appPort: uint16, socket: int, now: int, expirationTime: int)
    requires expirationTime > 0
    ensures appId in Unexpired(Registered(apps, appId, appAddress, appPort, socket, now), ActivityOf, expirationTime, now)
  {
  }

  /** Registering again under the same id leaves the set of apps as it was. */
  lemma RegisterAgainKeepsIds(apps: map<Id, App>, appId: Id, appAddress: seq<byte>, appPort: uint16, socket: int, now: int)
    requires appId in apps
    ensures Registered(apps, appId, appAddress, appPort, socket, now).Keys == apps.Keys
  {
  }
}
