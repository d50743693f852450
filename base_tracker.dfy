/** Shared tracker helpers (trackers/baseTracker.py): the bike list and the plain listing record. */
module BaseTracker {
  import opened Text
  import opened Basics
  import opened Records

  /** The fields `create_listing` sets. */
  const CreatedFields: set<string> := {"id", "title", "price", "url", "search_term", "source", "found_date"}

  /** `create_listing(...)` with the clock reading `now` (ISO format). */
  function CreateListing(listingId: Value, title: Value, price: Value, url: Value, searchTerm: Value,
                         source: Value, now: string): (r: Record)
    ensures r.Keys == CreatedFields
    ensures r["id"] == listingId && r["title"] == title && r["price"] == price && r["url"] == url
    ensures r["search_term"] == searchTerm && r["source"] == source && r["found_date"] == Str(now)
  {
    map["id" := listingId, "title" := title, "price" := price, "url" := url,
        "search_term" := searchTerm, "source" := source, "found_date" := Str(now)]
  }

  // ---------------------------------------------------------------- load_bike_list

  /** A stripped line names a bike unless it is empty or a comment. */
  predicate IsBikeLine(stripped: string) {
    stripped != [] && stripped[0] != '#'
  }

  /** The bike list a file with these lines yields: the stripped lines that name a bike, in order. */
  function BikeLines(lines: seq<string>): (r: seq<string>)
    ensures |r| <= |lines|
  {
    if lines == [] then []
    else
      var init, line := lines[..|lines| - 1], Strip(lines[|lines| - 1]);
      BikeLines(init) + (if IsBikeLine(line) then [line] else [])
  }

  lemma StripIdempotent(s: string)
    ensures Strip(Strip(s)) == Strip(s)
  {
    var t := Strip(s);
    if t != [] {
      StripUnpadded(t);
    }
  }

  /** `load_bike_list(filename)`: `file` is the file's lines, or `None` when it does not exist. */
  method LoadBikeList(file: Option<seq<string>>) returns (bikes: seq<string>)
    ensures file.None? ==> bikes == []
    ensures file.Some? ==> bikes == BikeLines(file.value)
  {
    if file.None? {
      return [];
    }
    var lines := file.value;
    bikes := [];
    for i := 0 to |lines|
      invariant bikes == BikeLines(lines[..i])
    {
      assert lines[..i + 1][..i] == lines[..i];
      var line := Strip(lines[i]);
      if line != [] && line[0] != '#' {
        bikes := bikes + [line];
      }
    }
    assert lines[..|lines|] == lines;
  }

  /** Reading a file in two parts gives the two parts' bikes one after the other: order is kept. */
  lemma {:induction false} BikeLinesConcat(a: seq<string>, b: seq<string>)
    ensures BikeLines(a + b) == BikeLines(a) + BikeLines(b)
    decreases |b|
  {
    if b == [] {
      assert a + b == a;
    } else {
      var b' := b[..|b| - 1];
      assert (a + b)[..|a + b| - 1] == a + b';
      assert (a + b)[|a + b| - 1] == b[|b| - 1];
      BikeLinesConcat(a, b');
    }
  }

  /** Every listed bike is already stripped. */
  lemma BikesAreStripped(lines: seq<string>)
    ensures forall b :: b in BikeLines(lines) ==> b == Strip(b) && IsBikeLine(b)
  {
    forall b | b in BikeLines(lines) ensures b == Strip(b) && IsBikeLine(b) {
      BikeLinesMembers(lines, b);
      StrippedAt(lines);
      var i :| 0 <= i < |lines| && Stripped(lines)[i] == b;
      StripIdempotent(lines[i]);
    }
  }

  /** Every line, stripped. */
  function Stripped(lines: seq<string>): (r: seq<string>)
    ensures |r| == |lines|
  {
    if lines == [] then [] else Stripped(lines[..|lines| - 1]) + [Strip(lines[|lines| - 1])]
  }

  lemma {:induction false} StrippedAt(lines: seq<string>)
    ensures forall i :: 0 <= i < |lines| ==> Stripped(lines)[i] == Strip(lines[i])
  {
    if lines != [] {
      var init := lines[..|lines| - 1];
      StrippedAt(init);
      forall i | 0 <= i < |lines| ensures Stripped(lines)[i] == Strip(lines[i]) {
        if i < |init| {
          assert init[i] == lines[i];
        }
      }
    }
  }

  /** A bike is listed exactly when some line strips to it and it is neither empty nor a comment;
      in particular an indented comment line is dropped. */
  lemma {:induction false} BikeLinesMembers(lines: seq<string>, b: string)
    ensures b in BikeLines(lines) <==> IsBikeLine(b) && b in Stripped(lines)
  {
    if lines != [] {
      BikeLinesMembers(lines[..|lines| - 1], b);
    }
  }
}
