/** Which member a stop's code is read from. */
module StopCodes {
  import opened Wrappers
  import opened JsonTree
  import opened Stations

  datatype Turn = Station | Details

  function MemberOf(turn: Turn): string {
    match turn
    case Station => "station"
    case Details => "stationDetails"
  }

  /** A text member of an object. */
  function TextMember(v: Json, name: string): Option<string> {
    if v.Obj? && name in v.members && v.members[name].Str? then Some(v.members[name].s) else None
  }

  /** An object's own code: the text `stationCode`, and `code` only where there is none. */
  predicate Names(v: Json, code: string) {
    || TextMember(v, "stationCode") == Some(code)
    || (TextMember(v, "stationCode") == None && TextMember(v, "code") == Some(code))
  }

  predicate Unnamed(v: Json) {
    TextMember(v, "stationCode") == None && TextMember(v, "code") == None
  }

  /** The code named at the end of a path of nested stations, none of which has a code of its own. */
  predicate ReadAlong(v: Json, path: seq<Turn>, code: string) {
    if path == [] then Names(v, code)
    else
      && Unnamed(v) && v.Obj? && MemberOf(path[0]) in v.members
      && ReadAlong(v.members[MemberOf(path[0])], path[1..], code)
  }

  /** At the first turn in which two paths differ, `station` comes first. */
  predicate Earlier(p: seq<Turn>, q: seq<Turn>) {
    && p != [] && q != []
    && ((p[0] == Station && q[0] == Details) || (p[0] == q[0] && Earlier(p[1..], q[1..])))
  }

  /** Every code read along an earlier path is blank. */
  ghost predicate FirstAlong(v: Json, path: seq<Turn>, code: string) {
    ReadAlong(v, path, code) && forall q, c :: Earlier(q, path) && ReadAlong(v, q, c) ==> c == ""
  }

  lemma ReadOneTurnOn(v: Json, turn: Turn, path: seq<Turn>, code: string)
    requires Unnamed(v) && v.Obj? && MemberOf(turn) in v.members
    ensures ReadAlong(v, [turn] + path, code) <==> ReadAlong(v.members[MemberOf(turn)], path, code)
  {
    assert ([turn] + path)[1..] == path;
  }

  lemma FirstBelowIsFirst(v: Json, turn: Turn, path: seq<Turn>, code: string)
    requires Unnamed(v) && v.Obj? && MemberOf(turn) in v.members
    requires FirstAlong(v.members[MemberOf(turn)], path, code)
    requires turn == Details && "station" in v.members ==>
               forall q, c :: ReadAlong(v.members["station"], q, c) ==> c == ""
    ensures FirstAlong(v, [turn] + path, code)
  {
    ReadOneTurnOn(v, turn, path, code);
    assert ([turn] + path)[1..] == path;
    forall q, c | Earlier(q, [turn] + path) && ReadAlong(v, q, c) ensures c == "" {
      assert ReadAlong(v.members[MemberOf(q[0])], q[1..], c);
    }
  }

  /** A code that is not blank is the first along some path. */
  lemma {:induction false} CodeIsFirst(v: Json) returns (path: seq<Turn>)
    requires StationCode(v) != ""
    ensures FirstAlong(v, path, StationCode(v))
  {
    path := [];
    if Unnamed(v) {
      var station := if "station" in v.members then StationCode(v.members["station"]) else "";
      if station != "" {
        path := CodeIsFirst(v.members["station"]);
        FirstBelowIsFirst(v, Station, path, station);
        path := [Station] + path;
      } else {
        forall q, c | "station" in v.members && ReadAlong(v.members["station"], q, c) ensures c == "" {
          BlankReadsBlank(v.members["station"], q, c);
        }
        path := CodeIsFirst(v.members["stationDetails"]);
        FirstBelowIsFirst(v, Details, path, StationCode(v));
        path := [Details] + path;
      }
    }
  }

  lemma {:induction false} BlankReadsBlank(v: Json, path: seq<Turn>, code: string)
    requires StationCode(v) == "" && ReadAlong(v, path, code)
    ensures code == ""
  {
    if path != [] {
      BlankReadsBlank(v.members[MemberOf(path[0])], path[1..], code);
    }
  }

  lemma FirstIsFirstBelow(v: Json, turn: Turn, path: seq<Turn>, code: string)
    requires FirstAlong(v, [turn] + path, code)
    ensures Unnamed(v) && v.Obj? && MemberOf(turn) in v.members && FirstAlong(v.members[MemberOf(turn)], path, code)
  {
    assert ([turn] + path)[1..] == path;
    forall q, c | Earlier(q, path) && ReadAlong(v.members[MemberOf(turn)], q, c) ensures c == "" {
      ReadOneTurnOn(v, turn, q, c);
      assert ([turn] + q)[1..] == q;
      assert Earlier([turn] + q, [turn] + path);
    }
  }

  lemma {:induction false} FirstIsTheCode(v: Json, path: seq<Turn>, code: string)
    requires code != "" && FirstAlong(v, path, code)
    ensures StationCode(v) == code
    decreases |path|
  {
    if path != [] {
      assert [path[0]] + path[1..] == path;
      FirstIsFirstBelow(v, path[0], path[1..], code);
      FirstIsTheCode(v.members[MemberOf(path[0])], path[1..], code);
      if path[0] == Details && "station" in v.members && StationCode(v.members["station"]) != "" {
        var q := CodeIsFirst(v.members["station"]);
        ReadOneTurnOn(v, Station, q, StationCode(v.members["station"]));
        assert Earlier([Station] + q, path);
      }
    }
  }

  /** Some path leads to a code that is not blank. */
  ghost predicate HasCode(v: Json) {
    exists path, code :: ReadAlong(v, path, code) && code != ""
  }

  lemma CodedMeansHasCode(v: Json)
    ensures StationCode(v) != "" <==> HasCode(v)
  {
    if StationCode(v) != "" {
      var first := CodeIsFirst(v);
      var code := StationCode(v);
      assert ReadAlong(v, first, code) && code != "";
    } else if HasCode(v) {
      var path, code :| ReadAlong(v, path, code) && code != "";
      BlankReadsBlank(v, path, code);
    }
  }

  /**
   * A stop's code is the first code that is not blank among those named along its nested stations,
   * `station` before `stationDetails`, where an object with a code of its own, even a blank one, hides
   * all below it; without any, the stop has no code.
   */
  lemma StationCodeIsTheFirstNamed(v: Json, code: string)
    ensures code != "" ==> (StationCode(v) == code <==> exists path :: FirstAlong(v, path, code))
    ensures StationCode(v) != "" <==> HasCode(v)
  {
    CodedMeansHasCode(v);
    if StationCode(v) != "" {
      var first := CodeIsFirst(v);
      assert FirstAlong(v, first, StationCode(v));
    }
    forall path | code != "" && FirstAlong(v, path, code) ensures StationCode(v) == code {
      FirstIsTheCode(v, path, code);
    }
  }
}
