/**
  The location string of an asset (the tail of `fetchCity` in server.go):
  the non-empty ones of city and country, joined by ", ". The decoded
  `state` takes no part. Also the lazy fill of a dispatched record's city
  by the `/random` handler.
 */
module Location {
  import opened Wrappers
  import opened Format

  /** The `exifInfo` object of an asset lookup. */
  datatype ExifInfo = ExifInfo(city: string, state: string, country: string)

  const Separator := ", "

  function TotalLength(parts: seq<string>): nat {
    if parts == [] then 0 else |parts[0]| + TotalLength(parts[1..])
  }

  /** `strings.Join`: the parts with one separator between each neighbouring pair. */
  function Join(parts: seq<string>, sep: string): (r: string)
    ensures |r| == TotalLength(parts) + (if parts == [] then 0 else (|parts| - 1) * |sep|)
  {
    if parts == [] then ""
    else if |parts| == 1 then parts[0]
    else parts[0] + sep + Join(parts[1..], sep)
  }

  /** The two conditional appends that build `parts`. */
  function Parts(e: ExifInfo): (parts: seq<string>)
    ensures |parts| <= 2
    ensures forall i :: 0 <= i < |parts| ==> parts[i] != ""
  {
    (if e.city != "" then [e.city] else []) + (if e.country != "" then [e.country] else [])
  }

  /**
    The location for an asset lookup: `None` stands for a request, transport,
    non-200 or decode failure, which all give "".
   */
  function LocationOf(lookup: Option<ExifInfo>): (r: string)
    ensures lookup.None? ==> r == ""
  {
    match lookup
    case None => ""
    case Some(e) => Join(Parts(e), Separator)
  }

  /** The four cases of the join. */
  lemma LocationCases(e: ExifInfo)
    ensures e.city == "" && e.country == "" ==> LocationOf(Some(e)) == ""
    ensures e.city != "" && e.country == "" ==> LocationOf(Some(e)) == e.city
    ensures e.city == "" && e.country != "" ==> LocationOf(Some(e)) == e.country
    ensures e.city != "" && e.country != "" ==> LocationOf(Some(e)) == e.city + ", " + e.country
  {
    if e.city != "" && e.country != "" {
      assert Parts(e) == [e.city, e.country];
      assert Parts(e)[1..] == [e.country];
      assert Join([e.country], Separator) == e.country;
      assert Join(Parts(e), Separator) == e.city + Separator + e.country;
    }
  }

  /** The state is decoded but never shown. */
  lemma LocationIgnoresState(e: ExifInfo, state: string)
    ensures LocationOf(Some(e)) == LocationOf(Some(e.(state := state)))
  {
  }

  /**
    A join starts with its first part and ends with its last, so with
    non-empty parts no separator leads or trails.
   */
  lemma {:induction false} JoinFramedByParts(parts: seq<string>, sep: string)
    requires parts != []
    ensures |parts[0]| <= |Join(parts, sep)| && Join(parts, sep)[..|parts[0]|] == parts[0]
    ensures |parts[|parts| - 1]| <= |Join(parts, sep)|
    ensures Join(parts, sep)[|Join(parts, sep)| - |parts[|parts| - 1]|..] == parts[|parts| - 1]
  {
    if |parts| > 1 {
      var rest := Join(parts[1..], sep);
      var last := parts[|parts| - 1];
      assert parts[1..][|parts[1..]| - 1] == last;
      JoinFramedByParts(parts[1..], sep);
      var r := parts[0] + sep + rest;
      assert r == Join(parts, sep);
      assert r[|r| - |last|..] == rest[|rest| - |last|..];
    }
  }

  /** A location is empty exactly when there was no lookup or neither field was set. */
  lemma LocationEmptyIff(lookup: Option<ExifInfo>)
    ensures LocationOf(lookup) == "" <==> lookup.None? || (lookup.value.city == "" && lookup.value.country == "")
  {
  }

  /**
    What the `/random` handler does with a dispatched record: when its city
    was not resolved yet, it looks the location up and marks it resolved.
   */
  function ResolveCity(p: PhotoInfo, lookup: Option<ExifInfo>): (q: PhotoInfo)
    ensures q.cityDone
    ensures q.id == p.id && q.date == p.date && q.index == p.index && q.total == p.total
    ensures !p.cityDone ==> q.city == LocationOf(lookup)
    ensures p.cityDone ==> q == p
  {
    if p.cityDone then p else p.(city := LocationOf(lookup), cityDone := true)
  }
}
