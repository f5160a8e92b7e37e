/**
 * The player-status endpoint (`GET /api/players`): an ordered decision table that
 * asks the game server's REST API when a token and a host are configured, falls
 * back to a TCP liveness probe of the game port when only the host is known or the
 * REST call failed, and otherwise reports that nothing is configured.
 *
 * The REST call and the probe are reduced to their outcomes, which are inputs;
 * `PlayerStats` reports which of the two calls it made, so that the outcome of a
 * call it did not make cannot influence the answer.
 */
module Players {
  import opened Wrappers

  /**
   * The fields of a successful REST reply that the handler reads. A field that is
   * missing from the JSON (or null) is None.
   */
  datatype RestReply<P> = RestReply(players: Option<seq<P>>, maxplayers: Option<int>)

  /**
   * The JSON body of the answer. `serverOnline` and `configured` are None in the
   * branches whose body does not carry that field.
   */
  datatype PlayerStatus<P> = PlayerStatus(
    online: int,
    players: seq<P>,
    maxPlayers: int,
    serverOnline: Option<bool>,
    configured: Option<bool>)

  /** Which network calls answering one request made. */
  datatype Calls = Calls(rest: bool, probe: bool)

  datatype Reply<P> = Reply(status: PlayerStatus<P>, calls: Calls)

  /** Capacity reported when the real one is not known. */
  const DefaultMaxPlayers := 8

  /** `online` value for "server up, player count unknown", distinct from 0. */
  const UnknownCount := -1

  /** Player statistics come from the REST API: both a token and a host are set. */
  predicate HasPlayerStatsEnabled(token: string, host: string) {
    token != "" && host != ""
  }

  /** The answer built from a successful REST reply. */
  function FromRest<P>(data: RestReply<P>): (st: PlayerStatus<P>)
    ensures st.online == |st.players|
    ensures data.players.Some? ==> st.players == data.players.value
    ensures data.players.None? ==> st.players == [] && st.online == 0
    ensures st.maxPlayers != 0
    ensures data.maxplayers.Some? && data.maxplayers.value != 0 ==> st.maxPlayers == data.maxplayers.value
    ensures data.maxplayers.None? || data.maxplayers.value == 0 ==> st.maxPlayers == DefaultMaxPlayers
    ensures st.serverOnline.None? && st.configured.None?
  {
    var roster := if data.players.Some? then data.players.value else [];
    var capacity := if data.maxplayers.Some? && data.maxplayers.value != 0 then data.maxplayers.value
                    else DefaultMaxPlayers;
    PlayerStatus(|roster|, roster, capacity, None, None)
  }

  /** The answer built from the outcome of the TCP probe. */
  function FromProbe<P>(reachable: bool): (st: PlayerStatus<P>)
    ensures st.online == UnknownCount <==> reachable
    ensures st.online == 0 <==> !reachable
    ensures st.players == [] && st.maxPlayers == DefaultMaxPlayers
    ensures st.serverOnline == Some(reachable) && st.configured.None?
  {
    PlayerStatus(if reachable then UnknownCount else 0, [], DefaultMaxPlayers, Some(reachable), None)
  }

  /** The answer when no game server host is configured. */
  function Unconfigured<P>(): (st: PlayerStatus<P>)
    ensures st.online == 0 && st.players == [] && st.maxPlayers == 0
    ensures st.serverOnline == Some(false) && st.configured == Some(false)
  {
    PlayerStatus(0, [], 0, Some(false), Some(false))
  }

  /**
   * One request to the player-status endpoint. `rest` is the outcome the REST call
   * has if it is made (None: non-success status, network error or unreadable
   * JSON); `reachable` is the outcome of the TCP probe if it is made.
   */
  function PlayerStats<P>(token: string, host: string, rest: Option<RestReply<P>>, reachable: bool): (r: Reply<P>)
    // the REST call is made exactly when player statistics are enabled
    ensures r.calls.rest <==> HasPlayerStatsEnabled(token, host)
    // the probe is made exactly once when a host is known and REST did not answer
    ensures r.calls.probe <==> host != "" && !(r.calls.rest && rest.Some?)
    // no network call at all exactly when no host is configured
    ensures !r.calls.rest && !r.calls.probe <==> host == ""
    ensures r.calls.rest && rest.Some? ==> r.status == FromRest(rest.value)
    ensures r.calls.probe ==> r.status == FromProbe(reachable)
    ensures host == "" ==> r.status == Unconfigured()
    // "up, count unknown" is reported only for a probe that connected, never confused with 0
    ensures r.status.online == UnknownCount <==> r.calls.probe && reachable
    ensures r.status.online >= 0 || r.status.online == UnknownCount
    ensures r.status.configured == Some(false) <==> host == ""
  {
    if HasPlayerStatsEnabled(token, host) && rest.Some? then
      Reply(FromRest(rest.value), Calls(true, false))
    else if host != "" then
      Reply(FromProbe(reachable), Calls(HasPlayerStatsEnabled(token, host), true))
    else
      Reply(Unconfigured(), Calls(false, false))
  }

  /**
   * When the `hasPlayerStatsEnabled` flag of the configuration endpoint is false
   * and a host is set, only the probe runs, whatever the REST API would have said.
   * (That the flag is true exactly when the REST call is made is the first
   * postcondition of `PlayerStats`.)
   */
  lemma StatsFlagMatchesRestBranch<P>(token: string, host: string, rest: Option<RestReply<P>>, reachable: bool)
    ensures !HasPlayerStatsEnabled(token, host) && host != "" ==>
              PlayerStats(token, host, rest, reachable) == Reply(FromProbe(reachable), Calls(false, true))
  {
  }

  /**
   * A failed REST call is followed by exactly one probe, and the answer is the
   * probe's, the same as if no token had been configured.
   */
  lemma RestFailureFallsBackToProbe<P>(token: string, host: string, reachable: bool)
    requires HasPlayerStatsEnabled(token, host)
    ensures PlayerStats<P>(token, host, None, reachable) == Reply(FromProbe(reachable), Calls(true, true))
    ensures PlayerStats<P>(token, host, None, reachable).status == PlayerStats<P>("", host, None, reachable).status
  {
  }
}
