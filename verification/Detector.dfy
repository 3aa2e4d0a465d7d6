/** parser.c and anomaly.c together: what the score makes of lines that were parsed. */
module Detector {
  import Parser
  import Stats

  // One use of a parsed line: the counters read for its address at that moment, the settings in force,
  // and whether it is scored or learnt silently.
  datatype Turn = Turn(line: string, rps: nat, err: real, c: Stats.Config, silent: bool)

  ghost predicate Usable(env: Parser.Env, t: Turn) {
    Parser.AuthWithoutTime(env, t.line) && Parser.Parse(env, t.line).Parsed?
  }

  ghost function SampleOf(env: Parser.Env, t: Turn): Stats.Sample
    requires Usable(env, t)
  {
    Stats.Sample(t.rps, t.err, Parser.Parse(env, t.line).entry.responseMs)
  }

  ghost function EventOf(env: Parser.Env, t: Turn): Stats.Event
    requires Usable(env, t)
  {
    if t.silent then Stats.Silent(t.c, SampleOf(env, t)) else Stats.Scored(t.c, SampleOf(env, t))
  }

  ghost function Events(env: Parser.Env, turns: seq<Turn>): (r: seq<Stats.Event>)
    requires forall k | 0 <= k < |turns| :: Usable(env, turns[k])
    ensures |r| == |turns| && forall k | 0 <= k < |r| :: r[k] == EventOf(env, turns[k])
  {
    seq(|turns|, k requires 0 <= k < |turns| => EventOf(env, turns[k]))
  }

  // After every history of parsed lines, whatever the counters and settings, no parsed line scores in the
  // top band: its response time is never filled in.
  lemma ParsedNeverTops(env: Parser.Env, turns: seq<Turn>, t: Turn)
    requires (forall k | 0 <= k < |turns| :: Usable(env, turns[k])) && Usable(env, t) && Stats.ValidConfig(t.c)
    ensures var d2 := Stats.ScoredDistance2(Stats.Run(Events(env, turns)), t.c, SampleOf(env, t));
      d2 <= 20.0 && Stats.Band(d2) <= 8
  {
    hide Parser.Parse, Stats.Run, Stats.ScoredDistance2;
    var events := Events(env, turns);
    forall k | 0 <= k < |events|
      ensures events[k].x.ms == 0
    {
      assert Usable(env, turns[k]);
      Parser.ParsedWithoutTime(env, turns[k].line);
    }
    Parser.ParsedWithoutTime(env, t.line);
    Stats.TimelessBound(events, t.c, SampleOf(env, t));
  }
}
