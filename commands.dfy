/**
 * The text-command router: `multiCommand` picks a handler from the message
 * text with the current prefix, `music` picks a music sub-handler, `playMusic`
 * extracts the search query, and `setPrefix` changes the prefix.
 *
 * The message is cut at every single space (Go's `strings.Split(content, " ")`),
 * token 1 is the verb and token 2 the music sub-verb; token 0 is never looked
 * at, only the `HasPrefix` test sees the start of the message. The Go code
 * indexes the token slice without an adequate length check in three places;
 * those out-of-range reads, which panic in Go, are the `IndexFault` outcomes.
 */
module Commands {
  import opened Text
  import opened Seqs

  /** The handlers of the top-level table. */
  datatype Verb = Ping | Prefix | JoinVoice | Disconnect | Avatar | Help | Music

  /** The handlers of the music table. */
  datatype MusicVerb = Play | Pause | Stop | Resume

  /**
   * What a dispatch does with a message: nothing, run one handler, send the
   * "unknown command" reply, or read past the end of the token slice.
   */
  datatype Outcome<V> = Ignored | Invoke(verb: V) | Unknown | IndexFault

  const DefaultPrefix: string := "!c"

  const CommandMap: map<string, Verb> := map[
    "ping" := Ping, "prefix" := Prefix, "join" := JoinVoice, "disconnect" := Disconnect,
    "avatar" := Avatar, "help" := Help, "music" := Music]

  const MusicCommandMap: map<string, MusicVerb> := map[
    "play" := Play, "pause" := Pause, "stop" := Stop, "resume" := Resume]

  /**
   * The two handler tables: seven top-level verbs and four music verbs, and
   * no two names select the same handler.
   */
  lemma CommandTable()
    ensures CommandMap.Keys == {"ping", "prefix", "join", "disconnect", "avatar", "help", "music"}
    ensures forall a, b :: a in CommandMap && b in CommandMap && CommandMap[a] == CommandMap[b] ==> a == b
  {
  }

  lemma MusicTable()
    ensures MusicCommandMap.Keys == {"play", "pause", "stop", "resume"}
    ensures forall a, b :: a in MusicCommandMap && b in MusicCommandMap && MusicCommandMap[a] == MusicCommandMap[b] ==> a == b
  {
  }

  /** The routing decision of `multiCommand` under the current prefix. */
  function Dispatch(prefix: string, content: string): (o: Outcome<Verb>)
    ensures o == Ignored <==> !HasPrefix(content, prefix)
  {
    if !HasPrefix(content, prefix) then Ignored
    else
      var message := Split(content);
      if |message| < 2 then IndexFault
      else if message[1] in CommandMap then Invoke(CommandMap[message[1]])
      else Unknown
  }

  /** The routing decision of `music`; its guard lets a two-token message through to `message[2]`. */
  function MusicDispatch(content: string): (o: Outcome<MusicVerb>)
    ensures o != Ignored
  {
    var message := Split(content);
    if |message| < 2 then Unknown
    else if |message| < 3 then IndexFault
    else if message[2] in MusicCommandMap then Invoke(MusicCommandMap[message[2]])
    else Unknown
  }

  /** What `playMusic` makes of the message before it calls into the playback server. */
  datatype PlayRequest = LoadTracks(query: string) | PlayUnknown | PlayIndexFault

  /** The query extraction of `playMusic`; its guard lets a three-field message through to `message[3]`. */
  function PlayQuery(content: string): (r: PlayRequest)
    ensures r.LoadTracks? ==> IsSuffix(r.query, content)
  {
    var message := SplitN(content, 4);
    SplitNLastIsSuffix(content, 4);
    if |message| < 3 then PlayUnknown
    else if |message| < 4 then PlayIndexFault
    else LoadTracks(message[3])
  }

  /** The prefix after `setPrefix` has handled `content`. */
  function PrefixAfter(prefix: string, content: string): (p: string)
    ensures p == prefix || p in Split(content)
  {
    var message := Split(content);
    if |message| > 2 then message[2] else prefix
  }

  /** The reply of `setPrefix`. */
  function PrefixReply(prefix: string, content: string): (reply: string)
    ensures reply == (if |Split(content)| > 2 then "prefix set to **" else "prefix is **")
      + PrefixAfter(prefix, content) + "**"
  {
    var message := Split(content);
    if |message| > 2 then "prefix set to **" + message[2] + "**" else "prefix is **" + prefix + "**"
  }

  /** A message `w0 + " " + w1 + tail` whose first two tokens are `w0` and `w1`. */
  predicate TwoWords(w0: string, w1: string, tail: string) {
    NoSpace(w0) && NoSpace(w1) && (tail == [] || tail[0] == Space)
  }

  lemma SplitTwoWords(w0: string, w1: string, tail: string)
    requires TwoWords(w0, w1, tail)
    ensures |Split(w0 + [Space] + w1 + tail)| >= 2
    ensures Split(w0 + [Space] + w1 + tail)[0] == w0 && Split(w0 + [Space] + w1 + tail)[1] == w1
    ensures tail == [] ==> Split(w0 + [Space] + w1 + tail) == [w0, w1]
    ensures tail != [] ==> Split(w0 + [Space] + w1 + tail) == [w0, w1] + Split(tail[1..])
  {
    if tail == [] {
      SplitTwoWordsEnd(w0, w1, tail);
    } else {
      SplitTwoWordsMore(w0, w1, tail);
    }
  }

  lemma SplitTwoWordsEnd(w0: string, w1: string, tail: string)
    requires TwoWords(w0, w1, tail) && tail == []
    ensures Split(w0 + [Space] + w1 + tail) == [w0, w1]
  {
    AppendNil(w0 + [Space] + w1);
    SplitWord(w0, w1);
    SplitWord(w1, []);
  }

  lemma SplitTwoWordsMore(w0: string, w1: string, tail: string)
    requires TwoWords(w0, w1, tail) && tail != []
    ensures Split(w0 + [Space] + w1 + tail) == [w0, w1] + Split(tail[1..])
  {
    var r := tail[1..];
    var y := w1 + [Space] + r;
    RegroupSeparatorTail(w0, Space, w1, tail);
    SplitWord(w1, r);
    SplitWord(w0, y);
    ConsTwo(w0, w1, Split(r));
  }

  /**
   * Top-level dispatch, stated on the words of the message: with the prefix
   * present, the second space-delimited word alone picks the handler, and a
   * word outside the table gets the unknown-command reply.
   */
  lemma DispatchBySecondWord(prefix: string, w0: string, w1: string, tail: string)
    requires TwoWords(w0, w1, tail)
    ensures Dispatch(prefix, w0 + [Space] + w1 + tail) ==
      if !HasPrefix(w0 + [Space] + w1 + tail, prefix) then Ignored
      else if w1 in CommandMap then Invoke(CommandMap[w1])
      else Unknown
  {
    SplitTwoWords(w0, w1, tail);
  }

  /** With the prefix present, dispatch reads past the tokens exactly when the message has no space. */
  lemma DispatchFaultsIffNoSpace(prefix: string, content: string)
    requires HasPrefix(content, prefix)
    ensures Dispatch(prefix, content) == IndexFault <==> NoSpace(content)
  {
    SplitSingleIffNoSpace(content);
  }

  /** Token 0 is never compared with anything: replacing it keeps the decision, once the prefix test passes. */
  lemma FirstWordIgnored(prefix: string, w: string, w': string, rest: string)
    requires NoSpace(w) && NoSpace(w')
    requires HasPrefix(w + [Space] + rest, prefix) && HasPrefix(w' + [Space] + rest, prefix)
    ensures Dispatch(prefix, w + [Space] + rest) == Dispatch(prefix, w' + [Space] + rest)
  {
    SplitWord(w, rest);
    SplitWord(w', rest);
  }

  /** A double space after the first word makes the verb empty, which gets the unknown-command reply. */
  lemma DoubleSpaceIsUnknown(prefix: string, w0: string, rest: string)
    requires NoSpace(w0) && HasPrefix(w0 + [Space, Space] + rest, prefix)
    ensures Dispatch(prefix, w0 + [Space, Space] + rest) == Unknown
  {
    var y := [] + [Space] + rest;
    RegroupDoubleSeparator(w0, Space, rest);
    SplitWord(w0, y);
    SplitWord([], rest);
    ConsIndex(w0, Split(y), 0);
  }

  /** Dispatch never reaches a handler without a prefix match, and the empty prefix matches everything. */
  lemma EmptyPrefixMatchesAll(content: string)
    ensures Dispatch([], content) != Ignored
  {
    assert content[..0] == [];
  }

  /** The music handler is only reached with at least two tokens, so its `< 2` guard never fires there. */
  lemma MusicGuardDeadFromRouter(prefix: string, content: string)
    requires Dispatch(prefix, content) == Invoke(Music)
    ensures MusicDispatch(content) == IndexFault <==> |Split(content)| == 2
    ensures MusicDispatch(content) == Unknown <==> |Split(content)| > 2 && Split(content)[2] !in MusicCommandMap
  {
  }

  /**
   * Music sub-verb dispatch on words: the third word picks the music handler;
   * a message that ends right after the verb reads past the tokens.
   */
  lemma MusicByThirdWord(w0: string, w1: string, w2: string, tail: string)
    requires NoSpace(w0) && TwoWords(w1, w2, tail)
    ensures MusicDispatch(w0 + [Space] + w1 + [Space] + w2 + tail) ==
      if w2 in MusicCommandMap then Invoke(MusicCommandMap[w2]) else Unknown
    ensures MusicDispatch(w0 + [Space] + w1) == IndexFault
  {
    RegroupThree(w0, w1, w2, tail, Space);
    SplitWord(w0, w1 + [Space] + w2 + tail);
    SplitTwoWords(w1, w2, tail);
    SplitTwoWords(w0, w1, []);
    AppendNil(w0 + [Space] + w1);
  }

  /** `<prefix> music` with nothing after it routes to the music handler and then faults. */
  lemma BareMusicFaults(prefix: string, w0: string)
    requires NoSpace(w0) && HasPrefix(w0 + " music", prefix)
    ensures Dispatch(prefix, w0 + " music") == Invoke(Music)
    ensures MusicDispatch(w0 + " music") == IndexFault
  {
    assert w0 + " music" == w0 + [Space] + "music" + [];
    DispatchBySecondWord(prefix, w0, "music", []);
    SplitTwoWords(w0, "music", []);
  }

  /**
   * Play query extraction: the query is everything after the third space,
   * verbatim, internal spaces included.
   */
  lemma PlayQueryIsRest(w0: string, w1: string, w2: string, query: string)
    requires NoSpace(w0) && NoSpace(w1) && NoSpace(w2)
    ensures PlayQuery(w0 + [Space] + w1 + [Space] + w2 + [Space] + query) == LoadTracks(query)
  {
    SplitNThreeWords(w0, w1, w2, query);
  }

  /** Three space-free words and a rest are the four fields of `SplitN(_, 4)`. */
  lemma SplitNThreeWords(w0: string, w1: string, w2: string, query: string)
    requires NoSpace(w0) && NoSpace(w1) && NoSpace(w2)
    ensures SplitN(w0 + [Space] + w1 + [Space] + w2 + [Space] + query, 4) == [w0, w1, w2, query]
  {
    var y2 := w2 + [Space] + query;
    var y1 := w1 + [Space] + y2;
    RegroupFour(w0, w1, w2, query, Space);
    SplitNWord(w0, y1, 4);
    SplitNWord(w1, y2, 3);
    SplitNWord(w2, query, 2);
    SplitNOne(query);
    ConsFour(w0, w1, w2, query);
  }

  /**
   * Conversely, a query that playMusic extracts is the rest of the split
   * joined back together, and the four fields joined with spaces give back
   * the message.
   */
  lemma PlayQueryReassembles(content: string)
    requires PlayQuery(content).LoadTracks?
    ensures |SplitN(content, 4)| == 4
    ensures JoinedWithSpaces(SplitN(content, 4)) == content
    ensures |Split(content)| >= 4 && PlayQuery(content).query == Join(Split(content)[3..])
  {
    var f := SplitN(content, 4);
    SplitNLength(content, 4);
    SplitNLast(content, 4);
    JoinSplitN(content, 4);
    JoinFour(f);
  }

  /** Four fields joined with a space between each two. */
  function JoinedWithSpaces(f: seq<string>): string
    requires |f| == 4
  {
    f[0] + [Space] + f[1] + [Space] + f[2] + [Space] + f[3]
  }

  lemma JoinFour(f: seq<string>)
    requires |f| == 4
    ensures Join(f) == JoinedWithSpaces(f)
  {
    var j3 := Join(f[3..]);
    var j2 := Join(f[2..]);
    var j1 := Join(f[1..]);
    assert f[3..][1..] == [];
    assert j3 == f[3];
    assert f[2..][1..] == f[3..];
    assert j2 == f[2] + [Space] + j3;
    assert f[1..][1..] == f[2..];
    assert j1 == f[1] + [Space] + j2;
    assert Join(f) == f[0] + [Space] + j1;
  }

  /** Which guard of playMusic a message hits depends only on how many tokens it has. */
  lemma PlayOutcomeByTokenCount(content: string)
    ensures PlayQuery(content) == PlayUnknown <==> |Split(content)| < 3
    ensures PlayQuery(content) == PlayIndexFault <==> |Split(content)| == 3
  {
    SplitNLength(content, 4);
  }

  /**
   * playMusic is only reached with at least three tokens, so its `< 3` guard
   * never fires there; `<prefix> music play` with no query faults.
   */
  lemma PlayGuardDeadFromMusic(content: string)
    requires MusicDispatch(content) == Invoke(Play)
    ensures PlayQuery(content) != PlayUnknown
    ensures PlayQuery(content) == PlayIndexFault <==> |Split(content)| == 3
  {
    PlayOutcomeByTokenCount(content);
  }

  /** setPrefix takes token 2 when there is one, and otherwise keeps the prefix. */
  lemma PrefixAfterWords(prefix: string, w0: string, w1: string, w2: string, tail: string)
    requires NoSpace(w0) && TwoWords(w1, w2, tail)
    ensures PrefixAfter(prefix, w0 + [Space] + w1 + [Space] + w2 + tail) == w2
    ensures PrefixAfter(prefix, w0 + [Space] + w1) == prefix
  {
    PrefixAfterThirdWord(prefix, w0, w1, w2, tail);
    PrefixAfterTwoWords(prefix, w0, w1);
  }

  lemma PrefixAfterThirdWord(prefix: string, w0: string, w1: string, w2: string, tail: string)
    requires NoSpace(w0) && TwoWords(w1, w2, tail)
    ensures PrefixAfter(prefix, w0 + [Space] + w1 + [Space] + w2 + tail) == w2
  {
    var y := w1 + [Space] + w2 + tail;
    RegroupThree(w0, w1, w2, tail, Space);
    SplitWord(w0, y);
    SplitTwoWords(w1, w2, tail);
    ConsIndex(w0, Split(y), 1);
  }

  lemma PrefixAfterTwoWords(prefix: string, w0: string, w1: string)
    requires NoSpace(w0) && NoSpace(w1)
    ensures PrefixAfter(prefix, w0 + [Space] + w1) == prefix
  {
    SplitWord(w0, w1);
    SplitWord(w1, []);
  }

  /** A prefix set by setPrefix never contains a space, and it may be empty. */
  lemma PrefixAfterHasNoSpace(prefix: string, content: string)
    requires NoSpace(prefix)
    ensures NoSpace(PrefixAfter(prefix, content))
  {
    SplitPiecesHaveNoSpace(content);
  }

  /** What one message does once the handler chain has run. */
  datatype Handled =
    | NotACommand
    | UnknownCommand
    | Fault
    | Ran(verb: Verb)
    | PrefixReplied(reply: string)
    | RanMusic(music: MusicVerb)
    | Searched(query: string)

  /** The bot's mutable routing state: the global `prefix`. */
  class Bot {
    var prefix: string

    constructor ()
      ensures prefix == DefaultPrefix
    {
      prefix := DefaultPrefix;
    }

    /** `setPrefix`: token 2 becomes the prefix if there is one; the reply names the resulting prefix. */
    method SetPrefix(content: string) returns (reply: string)
      modifies this
      ensures prefix == PrefixAfter(old(prefix), content)
      ensures reply == PrefixReply(old(prefix), content)
      ensures |Split(content)| <= 2 ==> prefix == old(prefix)
      ensures reply == (if |Split(content)| > 2 then "prefix set to **" else "prefix is **") + prefix + "**"
    {
      var message := Split(content);
      if |message| > 2 {
        prefix := message[2];
        reply := "prefix set to **" + prefix + "**";
      } else {
        reply := "prefix is **" + prefix + "**";
      }
    }

    /**
     * `multiCommand` together with the handler it calls: each outcome happens
     * exactly when the three routing functions lead to it, and the prefix
     * changes only through the prefix handler.
     */
    method MultiCommand(content: string) returns (h: Handled)
      modifies this
      ensures h == NotACommand <==> Dispatch(old(prefix), content) == Ignored
      ensures h == UnknownCommand <==>
        || Dispatch(old(prefix), content) == Unknown
        || (Dispatch(old(prefix), content) == Invoke(Music) && MusicDispatch(content) == Unknown)
        || (Dispatch(old(prefix), content) == Invoke(Music) && MusicDispatch(content) == Invoke(Play)
            && PlayQuery(content) == PlayUnknown)
      ensures h == Fault <==>
        || Dispatch(old(prefix), content) == IndexFault
        || (Dispatch(old(prefix), content) == Invoke(Music) && MusicDispatch(content) == IndexFault)
        || (Dispatch(old(prefix), content) == Invoke(Music) && MusicDispatch(content) == Invoke(Play)
            && PlayQuery(content) == PlayIndexFault)
      ensures h.Ran? <==>
        Dispatch(old(prefix), content).Invoke? && Dispatch(old(prefix), content).verb !in {Prefix, Music}
      ensures h.Ran? ==> Dispatch(old(prefix), content) == Invoke(h.verb)
      ensures h.RanMusic? <==>
        && Dispatch(old(prefix), content) == Invoke(Music)
        && MusicDispatch(content).Invoke? && MusicDispatch(content).verb != Play
      ensures h.RanMusic? ==> MusicDispatch(content) == Invoke(h.music)
      ensures h.Searched? <==>
        && Dispatch(old(prefix), content) == Invoke(Music) && MusicDispatch(content) == Invoke(Play)
        && PlayQuery(content).LoadTracks?
      ensures h.Searched? ==> PlayQuery(content) == LoadTracks(h.query)
      ensures h.PrefixReplied? <==> Dispatch(old(prefix), content) == Invoke(Prefix)
      ensures h.PrefixReplied? ==> h.reply == PrefixReply(old(prefix), content)
      ensures prefix == if Dispatch(old(prefix), content) == Invoke(Prefix) then PrefixAfter(old(prefix), content) else old(prefix)
    {
      var o := Dispatch(prefix, content);
      match o {
        case Ignored => h := NotACommand;
        case Unknown => h := UnknownCommand;
        case IndexFault => h := Fault;
        case Invoke(v) =>
          if v == Prefix {
            var reply := SetPrefix(content);
            h := PrefixReplied(reply);
          } else if v == Music {
            var mo := MusicDispatch(content);
            match mo {
              // MusicDispatch never ignores a message, so this case is never taken.
              case Ignored => h := NotACommand;
              case Unknown => h := UnknownCommand;
              case IndexFault => h := Fault;
              case Invoke(mv) =>
                if mv == Play {
                  var r := PlayQuery(content);
                  match r {
                    case PlayUnknown => h := UnknownCommand;
                    case PlayIndexFault => h := Fault;
                    case LoadTracks(q) => h := Searched(q);
                  }
                } else {
                  h := RanMusic(mv);
                }
            }
          } else {
            h := Ran(v);
          }
      }
    }
  }

  /** A fresh bot answers `!c ping` by running ping. */
  method ExampleBotPing() returns (h: Handled)
    ensures h == Ran(Ping)
  {
    var b := new Bot();
    ExamplePing();
    h := b.MultiCommand("!c ping");
  }

  /** A fresh bot faults on the bare prefix, which has no token 1. */
  method ExampleBotBarePrefix() returns (h: Handled)
    ensures h == Fault
  {
    var b := new Bot();
    ExampleBarePrefix();
    h := b.MultiCommand("!c");
  }

  /** A message with the prefix and a known verb runs that verb's handler. */
  lemma ExamplePing()
    ensures Dispatch("!c", "!c ping") == Invoke(Ping)
  {
    assert "!c ping" == "!c" + [Space] + "ping" + [];
    DispatchBySecondWord("!c", "!c", "ping", []);
  }

  /** An unknown verb gets the unknown-command reply. */
  lemma ExampleUnknown()
    ensures Dispatch("!c", "!c xyz") == Unknown
  {
    assert "!c xyz" == "!c" + [Space] + "xyz" + [];
    DispatchBySecondWord("!c", "!c", "xyz", []);
  }

  /** Only the prefix test looks at token 0, so `!cx ping` runs ping too. */
  lemma ExampleFirstTokenUnchecked()
    ensures Dispatch("!c", "!cx ping") == Invoke(Ping)
  {
    assert "!cx ping" == "!cx" + [Space] + "ping" + [];
    DispatchBySecondWord("!c", "!cx", "ping", []);
  }

  /** The bare prefix reads past the tokens. */
  lemma ExampleBarePrefix()
    ensures Dispatch("!c", "!c") == IndexFault
  {
    DispatchFaultsIffNoSpace("!c", "!c");
  }

  /** The play query keeps its internal spaces. */
  lemma ExamplePlayQuery()
    ensures PlayQuery("!c music play lofi beats") == LoadTracks("lofi beats")
  {
    assert "!c music play lofi beats" == "!c" + [Space] + "music" + [Space] + "play" + [Space] + "lofi beats";
    PlayQueryIsRest("!c", "music", "play", "lofi beats");
  }
}
