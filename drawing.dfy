/** The two pure rules of `drawHNLine` and `markerRemoveLine`: the colour of
    a navigation-point line and the key that names the features drawn for
    one house number. The geometry and the map layers are not modelled. */
module Drawing {
  import opened Options
  import opened Decimal

  /** The house-number record the editor hands to `drawHNLine` (and a
      marker's model in `markerRemoveLine`): its id, its number, the id of
      its segment, `forced`, and whether it has an `updatedBy` property at
      all. */
  datatype HouseNumber = HouseNumber(
    id: string,
    number: string,
    segId: int,
    forced: bool,
    updatedBy: Option<int>)

  /** The colour of the line: forced numbers are red or orange, the others
      yellow or white, and the lighter one of each pair marks a number that
      someone has updated. The colour tells both facts apart. */
  function StrokeColour(hn: HouseNumber): (c: string)
    ensures c in {"red", "orange", "yellow", "white"}
    ensures c in {"red", "orange"} <==> hn.forced
    ensures c in {"orange", "white"} <==> hn.updatedBy.Some?
  {
    if hn.forced then
      if hn.updatedBy.None? then "red" else "orange"
    else
      if hn.updatedBy.None? then "yellow" else "white"
  }

  /** A segment's primary street id as a template literal writes it:
      decimal with a `-` for a negative id, or "null" for a segment
      without a street. */
  function StreetText(streetId: Option<int>): (s: string)
    ensures '|' !in s
  {
    match streetId
    case None => "null"
    case Some(n) =>
      var t := NatToString(if n < 0 then -n else n);
      assert forall i :: 0 <= i < |t| ==> t[i] != '|';
      if n < 0 then "-" + t else t
  }

  /** The key `HNNavPoints|<street>|<number>|<id>`. */
  function Key(streetId: Option<int>, number: string, id: string): string {
    "HNNavPoints|" + (StreetText(streetId) + ("|" + (number + ("|" + id))))
  }

  /** The feature key of the lines and labels drawn for one house number,
      with `streetOf` giving the primary street id of each loaded segment.
      `drawHNLine` draws nothing for a house number whose segment is not
      loaded. */
  function FeatureId(streetOf: map<int, Option<int>>, hn: HouseNumber): (key: Option<string>)
    ensures key.Some? <==> hn.segId in streetOf
  {
    if hn.segId in streetOf then Some(Key(streetOf[hn.segId], hn.number, hn.id)) else None
  }

  /** Splits `s` at its first `sep`. */
  function SplitFirst(s: string, sep: char): (r: Option<(string, string)>)
    ensures r.Some? ==> sep !in r.value.0 && s == r.value.0 + [sep] + r.value.1
    ensures r.None? ==> sep !in s
  {
    if s == [] then None
    else if s[0] == sep then Some(([], s[1..]))
    else match SplitFirst(s[1..], sep)
      case None => None
      case Some((a, b)) => Some(([s[0]] + a, b))
  }

  function ParseStreet(s: string): Option<Option<int>> {
    if s == "null" then Some(None)
    else if |s| > 1 && s[0] == '-' && AllDigits(s[1..]) then Some(Some(0 - StringToNat(s[1..]) as int))
    else if s != [] && AllDigits(s) then Some(Some(StringToNat(s)))
    else None
  }

  /** Reads a feature key back into street id, house number and id. */
  function ParseFeatureId(f: string): Option<(Option<int>, string, string)> {
    var prefix := "HNNavPoints|";
    if |f| < |prefix| || f[..|prefix|] != prefix then None
    else match SplitFirst(f[|prefix|..], '|')
      case None => None
      case Some((street, rest)) =>
        match SplitFirst(rest, '|')
        case None => None
        case Some((number, id)) =>
          match ParseStreet(street)
          case None => None
          case Some(st) => Some((st, number, id))
  }

  lemma {:induction false} SplitFirstAt(a: string, sep: char, b: string)
    requires sep !in a
    ensures SplitFirst(a + ([sep] + b), sep) == Some((a, b))
    decreases |a|
  {
    if a == [] {
      assert a + ([sep] + b) == [sep] + b;
    } else {
      assert (a + ([sep] + b))[1..] == a[1..] + ([sep] + b);
      SplitFirstAt(a[1..], sep, b);
      assert [a[0]] + a[1..] == a;
    }
  }

  lemma ParseStreetText(streetId: Option<int>)
    ensures ParseStreet(StreetText(streetId)) == Some(streetId)
  {
    if streetId.Some? {
      var n := streetId.value;
      var t := NatToString(if n < 0 then -n else n);
      StringToNatOfNatToString(if n < 0 then -n else n);
      if n < 0 {
        assert ("-" + t)[1..] == t;
      } else {
        assert t != "null" by { assert IsDigit(t[0]); }
      }
    }
  }

  /** The key of a house number whose number has no `|` reads back to its
      street id, number and id. */
  lemma ParseFeatureIdRoundTrip(streetOf: map<int, Option<int>>, hn: HouseNumber)
    requires hn.segId in streetOf && '|' !in hn.number
    ensures ParseFeatureId(FeatureId(streetOf, hn).value) == Some((streetOf[hn.segId], hn.number, hn.id))
  {
    var prefix := "HNNavPoints|";
    var streetId := streetOf[hn.segId];
    var street := StreetText(streetId);
    var rest := hn.number + ("|" + hn.id);
    var f := FeatureId(streetOf, hn).value;
    assert f == prefix + (street + ("|" + rest));
    assert f[..|prefix|] == prefix;
    assert f[|prefix|..] == street + ("|" + rest);
    SplitFirstAt(street, '|', rest);
    SplitFirstAt(hn.number, '|', hn.id);
    ParseStreetText(streetId);
  }

  /** The key `markerRemoveLine` builds for a marker's house number finds
      exactly the features `drawHNLine` drew for it: equal keys mean the
      same street id, number and id. */
  lemma FeatureIdInjective(streetOf: map<int, Option<int>>, h1: HouseNumber, h2: HouseNumber)
    requires '|' !in h1.number && '|' !in h2.number
    requires FeatureId(streetOf, h1).Some? && FeatureId(streetOf, h1) == FeatureId(streetOf, h2)
    ensures streetOf[h1.segId] == streetOf[h2.segId] && h1.number == h2.number && h1.id == h2.id
  {
    ParseFeatureIdRoundTrip(streetOf, h1);
    ParseFeatureIdRoundTrip(streetOf, h2);
  }
}
