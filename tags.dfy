/** The tag string that `nGetTags` hands to the UI: every string of libvgm's
    null-terminated tag list, each followed by the separator "|||". */
module Tags {

  const Separator: string := "|||"

  /** The joined form: each tag, then the separator, trailing one included. */
  function Join(tags: seq<string>): (s: string)
  {
    if tags == [] then "" else tags[0] + Separator + Join(tags[1..])
  }

  /** Appending one tag appends that tag and one separator, which is what one
      iteration of the accumulating loop does. */
  lemma {:induction false} JoinSnoc(tags: seq<string>, t: string)
    ensures Join(tags + [t]) == Join(tags) + t + Separator
  {
    if tags != [] {
      assert (tags + [t])[1..] == tags[1..] + [t];
      JoinSnoc(tags[1..], t);
    }
  }

  /** The joined string has one separator per tag on top of the tags' own
      characters, and a non-empty list always ends in a separator. */
  lemma {:induction false} JoinShape(tags: seq<string>)
    ensures |Join(tags)| == TotalLength(tags) + 3 * |tags|
    ensures tags != [] ==> Join(tags)[|Join(tags)| - 3..] == Separator
  {
    if tags != [] {
      JoinShape(tags[1..]);
      var rest := Join(tags[1..]);
      if tags[1..] == [] {
        assert Join(tags) == tags[0] + Separator;
      } else {
        assert Join(tags)[|Join(tags)| - 3..] == rest[|rest| - 3..];
      }
    }
  }

  function TotalLength(tags: seq<string>): (n: nat)
  {
    if tags == [] then 0 else |tags[0]| + TotalLength(tags[1..])
  }

  /** Index of the first '|' in s, or |s| when there is none. */
  function BarIndex(s: string): (k: nat)
    ensures k <= |s|
    ensures forall i :: 0 <= i < k ==> s[i] != '|'
    ensures k < |s| ==> s[k] == '|'
  {
    if s == [] || s[0] == '|' then 0 else 1 + BarIndex(s[1..])
  }

  /** A reader of the joined form: cut at each "|||". A trailing piece without
      a separator is kept whole. */
  function Split(s: string): (tags: seq<string>)
    decreases |s|
  {
    if s == [] then []
    else
      var k := BarIndex(s);
      if k + 3 <= |s| && s[k..k + 3] == Separator then [s[..k]] + Split(s[k + 3..])
      else [s]
  }

  predicate NoBar(t: string) {
    forall i :: 0 <= i < |t| ==> t[i] != '|'
  }

  /** The first '|' of `t + rest` is at |t| when t has none. */
  lemma {:induction false} BarIndexAfter(t: string, rest: string)
    requires NoBar(t) && rest != [] && rest[0] == '|'
    ensures BarIndex(t + rest) == |t|
  {
    if t != [] {
      assert (t + rest)[1..] == t[1..] + rest;
      BarIndexAfter(t[1..], rest);
    }
  }

  /** Round trip: as long as no tag contains '|', splitting the joined string
      gives back exactly the tag list, empty tags included. */
  lemma {:induction false} SplitJoin(tags: seq<string>)
    requires forall i :: 0 <= i < |tags| ==> NoBar(tags[i])
    ensures Split(Join(tags)) == tags
  {
    if tags != [] {
      var t, rest := tags[0], Join(tags[1..]);
      var s := Join(tags);
      assert s == t + (Separator + rest);
      BarIndexAfter(t, Separator + rest);
      assert s[..|t|] == t;
      assert s[|t|..|t| + 3] == Separator;
      assert s[|t| + 3..] == rest;
      SplitJoin(tags[1..]);
      assert [t] + tags[1..] == tags;
    }
  }
}
