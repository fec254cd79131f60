/**
 * `findMembersChannel`: the voice channel a user is connected to, found by a
 * first-match scan of the guild's voice states in the session's state cache.
 * User ids are compared with `strings.EqualFold`, here ASCII case folding.
 */
module Voice {
  import opened Text

  /** The two fields of discordgo.VoiceState that the scan reads. */
  datatype VoiceState = VoiceState(userId: string, channelId: string)

  /** The state cache's guilds by id, with their voice states in cache order. */
  type GuildCache = map<string, seq<VoiceState>>

  /** Position of the first voice state of `userId`, or `|vs|` when there is none. */
  function FirstMatch(vs: seq<VoiceState>, userId: string): (i: nat)
    ensures i <= |vs|
    ensures forall j :: 0 <= j < i ==> !EqualFold(userId, vs[j].userId)
    ensures i < |vs| ==> EqualFold(userId, vs[i].userId)
  {
    if |vs| == 0 then 0
    else if EqualFold(userId, vs[0].userId) then 0
    else 1 + FirstMatch(vs[1..], userId)
  }

  /**
   * The channel of the first matching voice state; the empty string when the
   * guild is not in the cache or the user has no voice state there.
   */
  method FindMembersChannel(guilds: GuildCache, guildId: string, userId: string) returns (channelId: string)
    ensures guildId !in guilds ==> channelId == ""
    ensures guildId in guilds && FirstMatch(guilds[guildId], userId) < |guilds[guildId]| ==>
      channelId == guilds[guildId][FirstMatch(guilds[guildId], userId)].channelId
    ensures guildId in guilds && FirstMatch(guilds[guildId], userId) == |guilds[guildId]| ==> channelId == ""
  {
    if guildId !in guilds {
      return "";
    }
    var states := guilds[guildId];
    var k := 0;
    while k < |states|
      invariant k <= |states|
      invariant forall j :: 0 <= j < k ==> !EqualFold(userId, states[j].userId)
    {
      if EqualFold(userId, states[k].userId) {
        FirstMatchIsFirst(states, userId, k);
        return states[k].channelId;
      }
      k := k + 1;
    }
    FirstMatchIsFirst(states, userId, k);
    return "";
  }

  /** `FirstMatch` is the one position with no match before it and a match at it (or the end). */
  lemma {:induction false} FirstMatchIsFirst(vs: seq<VoiceState>, userId: string, k: nat)
    requires k <= |vs|
    requires forall j :: 0 <= j < k ==> !EqualFold(userId, vs[j].userId)
    requires k < |vs| ==> EqualFold(userId, vs[k].userId)
    ensures FirstMatch(vs, userId) == k
  {
  }

  lemma EqualFoldTransitive(a: string, b: string, c: string)
    requires EqualFold(a, b) && EqualFold(b, c)
    ensures EqualFold(a, c)
  {
  }

  /** Ids that differ only in ASCII letter case find the same voice state. */
  lemma {:induction false} FirstMatchIgnoresCase(vs: seq<VoiceState>, u: string, u': string)
    requires EqualFold(u, u')
    ensures FirstMatch(vs, u) == FirstMatch(vs, u')
  {
    if |vs| > 0 {
      if EqualFold(u, vs[0].userId) {
        EqualFoldTransitive(u', u, vs[0].userId);
      } else if EqualFold(u', vs[0].userId) {
        EqualFoldTransitive(u, u', vs[0].userId);
      }
      FirstMatchIgnoresCase(vs[1..], u, u');
    }
  }
}
