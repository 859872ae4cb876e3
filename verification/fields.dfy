/** The named fields a terminal captures, cleaned up as `tweak_match_dict` does:
    groups that did not participate are dropped and a `_<digit>` suffix, which the
    patterns use to give two alternatives the same field, is removed from the name. */
module Fields {
  import opened Wrappers
  import opened Text

  /** A named group of a match: its name and the text it captured, if it took part. */
  type Group = (string, Option<string>)

  /** Whether a group name ends in `_` and one digit (the regex `(.*)_\d$`). */
  predicate HasIndexSuffix(name: string) {
    |name| >= 2 && name[|name| - 2] == '_' && IsDigit(name[|name| - 1])
  }

  function StripIndex(name: string): (r: string)
    ensures HasIndexSuffix(name) ==> r + name[|name| - 2..] == name
    ensures !HasIndexSuffix(name) ==> r == name
  {
    if HasIndexSuffix(name) then name[..|name| - 2] else name
  }

  /** `tweak_match_dict(match.groupdict())`. */
  function Tweak(groups: seq<Group>): (d: map<string, string>)
    ensures forall k :: k in d <==> exists i :: 0 <= i < |groups| && groups[i].1.Some? && StripIndex(groups[i].0) == k
    ensures forall k :: k in d ==> exists i :: 0 <= i < |groups| && groups[i].1 == Some(d[k]) && StripIndex(groups[i].0) == k
  {
    if |groups| == 0 then map[]
    else
      var d := Tweak(groups[..|groups| - 1]);
      var (name, v) := groups[|groups| - 1];
      assert forall i :: 0 <= i < |groups| - 1 ==> groups[..|groups| - 1][i] == groups[i];
      match v
      case None => d
      case Some(text) => d[StripIndex(name) := text]
  }

  /** `d.get(key)` */
  function Get(d: map<string, string>, key: string): Option<string> {
    if key in d then Some(d[key]) else None
  }
}
