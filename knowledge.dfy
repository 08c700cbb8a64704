/**
 * The recommender service's own logic (app.py): the knowledge-base text that
 * lists every study spot with its tags, and the per-e-mail profile store that
 * each recommendation request merges into.
 */
module KnowledgeBase {
  import opened Options
  import opened Text

  /** One entry of the study-spot list: `{ "name": ..., "tags": [...] }`. */
  datatype Spot = Spot(name: string, tags: seq<string>)

  /** The line for one spot: its name, a colon and a space, then its tags separated by a comma and a space. */
  function SpotLine(spot: Spot): string {
    spot.name + ": " + Join(spot.tags, ", ")
  }

  /** The lines the loop appends, one per spot, front to back. */
  function SpotLines(spots: seq<Spot>): (lines: seq<string>)
    ensures |lines| == |spots|
    ensures forall i :: 0 <= i < |spots| ==> lines[i] == SpotLine(spots[i])
  {
    if spots == [] then [] else [SpotLine(spots[0])] + SpotLines(spots[1..])
  }

  /** The knowledge-base text: the spot lines joined by newlines, none after the last. */
  function KnowledgeText(spots: seq<Spot>): string {
    Join(SpotLines(spots), "\n")
  }

  /** `format_spots(spots)`: collects one line per spot in a loop, then joins them. */
  method FormatSpots(spots: seq<Spot>) returns (text: string)
    ensures text == KnowledgeText(spots)
    ensures spots == [] ==> text == ""
  {
    var lines: seq<string> := [];
    for i := 0 to |spots|
      invariant |lines| == i
      invariant forall k :: 0 <= k < i ==> lines[k] == SpotLine(spots[k])
    {
      lines := lines + [SpotLine(spots[i])];
    }
    assert lines == SpotLines(spots);
    text := Join(lines, "\n");
  }

  /** A spot without tags gives its name and the colon and space alone. */
  lemma SpotLineNoTags(name: string)
    ensures SpotLine(Spot(name, [])) == name + ": "
  {
  }

  /** No spot line contains a newline when no name or tag does. */
  lemma SpotLineOneLine(spot: Spot)
    requires '\n' !in spot.name
    requires forall t :: 0 <= t < |spot.tags| ==> '\n' !in spot.tags[t]
    ensures '\n' !in SpotLine(spot)
  {
    JoinAvoids(spot.tags, ", ", '\n');
  }

  /**
   * Splitting the text at newlines gives back exactly one line per spot, in
   * input order, provided no name or tag contains a newline.
   */
  lemma KnowledgeTextLines(spots: seq<Spot>)
    requires spots != []
    requires forall i :: 0 <= i < |spots| ==> '\n' !in spots[i].name
    requires forall i, t :: 0 <= i < |spots| && 0 <= t < |spots[i].tags| ==> '\n' !in spots[i].tags[t]
    ensures Split(KnowledgeText(spots), '\n') == SpotLines(spots)
  {
    var lines := SpotLines(spots);
    forall i | 0 <= i < |lines| ensures '\n' !in lines[i] {
      SpotLineOneLine(spots[i]);
    }
    SplitJoin(lines, '\n');
  }

  /** A profile: the fields of the request's JSON object. */
  type Profile = map<string, string>

  /** `data.get("email")`: the key the profile is kept under, `None` when the request has no e-mail. */
  function EmailKey(data: Profile): Option<string> {
    if "email" in data then Some(data["email"]) else None
  }

  /**
   * `profile.update(data)`: every field of `data` takes its new value, every
   * other stored field keeps its old one, and no other field appears.
   */
  function Merge(stored: Profile, data: Profile): (r: Profile)
    ensures r.Keys == stored.Keys + data.Keys
    ensures forall k :: k in data ==> r[k] == data[k]
    ensures forall k :: k in stored && k !in data ==> r[k] == stored[k]
  {
    stored + data
  }

  /** Sending the same data again changes nothing more. */
  lemma MergeIdempotent(stored: Profile, data: Profile)
    ensures Merge(Merge(stored, data), data) == Merge(stored, data)
  {
  }

  /** The module-level `user_profiles` dictionary. */
  class ProfileRegistry {
    var profiles: map<Option<string>, Profile>

    constructor ()
      ensures profiles == map[]
    {
      profiles := map[];
    }

    /**
     * The profile bookkeeping of `recommend`: the stored profile for the
     * request's e-mail (empty if none) is updated with the request's fields
     * and stored back; the merged profile is what the prompt describes.
     */
    method Recommend(data: Profile) returns (profile: Profile)
      modifies this
      ensures var key := EmailKey(data);
              && profile == Merge(if key in old(profiles) then old(profiles)[key] else map[], data)
              && profiles == old(profiles)[key := profile]
      ensures forall k :: k in data ==> profile[k] == data[k]
      ensures forall e :: e != EmailKey(data) ==>
                (e in profiles <==> e in old(profiles)) && (e in profiles ==> profiles[e] == old(profiles)[e])
    {
      var email := EmailKey(data);
      profile := if email in profiles then profiles[email] else map[];
      profile := Merge(profile, data);
      profiles := profiles[email := profile];
    }
  }
}
