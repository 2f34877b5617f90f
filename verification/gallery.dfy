/**
 * The in-memory gallery of face_detection/FaceRecognitionProcessor.kt as
 * values: the Recognition record, the HashMap of registered faces seen as a
 * sequence of entries in iteration order, the squared L2 distance, the
 * nearest-neighbour choice and the distance threshold colouring.
 *
 * Distances are squared throughout: the source takes a square root before
 * comparing, and since the square root is monotone on non-negative numbers
 * neither the argmin nor the test `d < 1` changes (d < 1 <==> d*d < 1).
 */
module Gallery {
  import opened Wrappers

  /** android.graphics.Color.GREEN (0xFF00FF00) as a signed Int. */
  const ColorGreen: int := -16711936
  /** android.graphics.Color.RED (0xFFFF0000) as a signed Int. */
  const ColorRed: int := -65536
  /** Float.MAX_VALUE, the "no match yet" distance of a fresh recognition. */
  const FloatMax: real := 340282346638528859811704183484516925440.0
  /** A recognition is coloured when its distance is below this. */
  const Threshold: real := 1.0

  /** The Recognition record: `extra` holds the face embedding. */
  datatype Recognition = Recognition(id: string, title: string, distance: real, color: int, extra: seq<real>)

  /** One key/value pair of the `registered` HashMap. */
  datatype Entry = Entry(name: string, rec: Recognition)

  /** The recognition `recognize` builds for a fresh embedding: id "0", title "?", distance MAX. */
  function Initial(emb: seq<real>): Recognition {
    Recognition("0", "?", FloatMax, 0, emb)
  }

  // ----- distance -----

  /**
   * The identity. Sq multiplies x by Id(x) rather than by x: the solver
   * proves `x * x > 0.0` for non-zero x on its own, but cannot carry that
   * fact over to a value equated with `x * x`, which SumSq needs. A product
   * of two distinct terms does not have that problem.
   */
  function Id(x: real): real { x }

  /** x squared: never negative, and zero only at zero. */
  function Sq(x: real): (r: real)
    ensures r >= 0.0
    ensures x != 0.0 ==> r > 0.0
  {
    SquarePositive(x);
    x * Id(x)
  }

  lemma SquarePositive(x: real)
    ensures x * Id(x) >= 0.0
    ensures x != 0.0 ==> x * Id(x) > 0.0
  {
    if x > 0.0 {
      assert x * x > 0.0;
    } else if x < 0.0 {
      assert x * x > 0.0;
    }
  }

  /** Sum of (emb[i] - known[i])^2 over the first n indices of the query. */
  function SumSq(emb: seq<real>, known: seq<real>, n: nat): (r: real)
    requires n <= |emb| <= |known|
    ensures r >= 0.0
  {
    if n == 0 then 0.0
    else SumSq(emb, known, n - 1) + Sq(emb[n - 1] - known[n - 1])
  }

  /** Squared L2 distance over the query's indices; the stored vector must be at least as long. */
  function SquaredDistance(emb: seq<real>, known: seq<real>): real
    requires |emb| <= |known|
  {
    SumSq(emb, known, |emb|)
  }

  /** The partial sum is zero exactly when the first n coordinates agree. */
  lemma {:induction false} SumSqZeroIff(emb: seq<real>, known: seq<real>, n: nat)
    requires n <= |emb| <= |known|
    ensures SumSq(emb, known, n) == 0.0 <==> emb[..n] == known[..n]
  {
    if n > 0 {
      SumSqZeroIff(emb, known, n - 1);
      assert emb[..n] == emb[..n - 1] + [emb[n - 1]];
      assert known[..n] == known[..n - 1] + [known[n - 1]];
      if emb[..n] == known[..n] {
        assert emb[..n - 1] == emb[..n][..n - 1];
        assert known[..n - 1] == known[..n][..n - 1];
        assert emb[n - 1] == emb[..n][n - 1];
        assert known[n - 1] == known[..n][n - 1];
      }
    }
  }

  /**
   * The distance is zero exactly when the stored embedding starts with the
   * query; for equal lengths, exactly when the two are equal.
   */
  lemma DistanceZeroIff(emb: seq<real>, known: seq<real>)
    requires |emb| <= |known|
    ensures SquaredDistance(emb, known) == 0.0 <==> known[..|emb|] == emb
  {
    SumSqZeroIff(emb, known, |emb|);
    assert emb[..|emb|] == emb;
  }

  // ----- nearest neighbour -----

  /** Every stored embedding is at least as long as the query, so indexing cannot fail. */
  predicate Comparable(entries: seq<Entry>, emb: seq<real>) {
    forall k :: 0 <= k < |entries| ==> |emb| <= |entries[k].rec.extra|
  }

  function DistanceTo(entries: seq<Entry>, emb: seq<real>, k: int): real
    requires Comparable(entries, emb) && 0 <= k < |entries|
  {
    SquaredDistance(emb, entries[k].rec.extra)
  }

  /**
   * The index findNearest settles on, scanning the entries in order and
   * replacing its candidate only on a strictly smaller distance.
   */
  function NearestIndex(entries: seq<Entry>, emb: seq<real>): (r: Option<nat>)
    requires Comparable(entries, emb)
    ensures r.None? <==> |entries| == 0
    ensures r.Some? ==> r.value < |entries|
    decreases |entries|
  {
    if |entries| == 0 then None
    else
      var init := entries[..|entries| - 1];
      var last := |entries| - 1;
      var p := NearestIndex(init, emb);
      if p.None? || DistanceTo(entries, emb, last) < DistanceTo(init, emb, p.value) then Some(last) else p
  }

  /**
   * Entry i is nearest to the query and every entry before it is strictly
   * further away: the first minimum in iteration order.
   */
  predicate IsFirstMinimum(entries: seq<Entry>, emb: seq<real>, i: int)
    requires Comparable(entries, emb)
  {
    && 0 <= i < |entries|
    && (forall j :: 0 <= j < |entries| ==> DistanceTo(entries, emb, i) <= DistanceTo(entries, emb, j))
    && (forall j :: 0 <= j < i ==> DistanceTo(entries, emb, i) < DistanceTo(entries, emb, j))
  }

  lemma {:induction false} NearestIsFirstMinimum(entries: seq<Entry>, emb: seq<real>)
    requires Comparable(entries, emb) && |entries| > 0
    ensures NearestIndex(entries, emb).Some?
    ensures IsFirstMinimum(entries, emb, NearestIndex(entries, emb).value)
    decreases |entries|
  {
    var init := entries[..|entries| - 1];
    var last := |entries| - 1;
    assert forall j :: 0 <= j < |init| ==> DistanceTo(init, emb, j) == DistanceTo(entries, emb, j);
    if |init| > 0 {
      NearestIsFirstMinimum(init, emb);
    }
  }

  /** At most one index is a first minimum. */
  lemma FirstMinimumUnique(entries: seq<Entry>, emb: seq<real>, i: int, k: int)
    requires Comparable(entries, emb)
    requires IsFirstMinimum(entries, emb, i) && 0 <= k < |entries|
    ensures IsFirstMinimum(entries, emb, k) ==> k == i
  {
    assert DistanceTo(entries, emb, i) <= DistanceTo(entries, emb, k);
    assert k < i ==> DistanceTo(entries, emb, i) < DistanceTo(entries, emb, k);
  }

  /**
   * findNearest's choice, characterised without reference to the scan: no
   * result exactly for an empty gallery, otherwise the first minimum.
   */
  lemma NearestIndexIff(entries: seq<Entry>, emb: seq<real>, i: int)
    requires Comparable(entries, emb)
    ensures NearestIndex(entries, emb) == Some(i) <==> IsFirstMinimum(entries, emb, i)
  {
    if |entries| > 0 {
      NearestIsFirstMinimum(entries, emb);
      if IsFirstMinimum(entries, emb, i) {
        FirstMinimumUnique(entries, emb, i, NearestIndex(entries, emb).value);
      }
    }
  }

  // ----- the HashMap view of `registered` -----

  predicate UniqueNames(entries: seq<Entry>) {
    forall i, j :: 0 <= i < j < |entries| ==> entries[i].name != entries[j].name
  }

  /** Position of the first entry with this name. */
  function IndexOf(entries: seq<Entry>, name: string): (r: Option<nat>)
    ensures r.Some? ==> r.value < |entries| && entries[r.value].name == name
    ensures r.None? ==> forall j :: 0 <= j < |entries| ==> entries[j].name != name
  {
    if entries == [] then None
    else if entries[0].name == name then Some(0)
    else match IndexOf(entries[1..], name)
      case None => None
      case Some(i) => Some(i + 1)
  }

  /** HashMap.get. */
  function Lookup(entries: seq<Entry>, name: string): Option<Recognition> {
    match IndexOf(entries, name)
    case None => None
    case Some(i) => Some(entries[i].rec)
  }

  /** HashMap.put: replace the value of an existing key in place, otherwise add the key. */
  function Put(entries: seq<Entry>, name: string, rec: Recognition): seq<Entry> {
    match IndexOf(entries, name)
    case Some(i) => entries[i := Entry(name, rec)]
    case None => entries + [Entry(name, rec)]
  }

  lemma LookupAt(entries: seq<Entry>, i: int)
    requires UniqueNames(entries) && 0 <= i < |entries|
    ensures Lookup(entries, entries[i].name) == Some(entries[i].rec)
  {
    var r := IndexOf(entries, entries[i].name);
    assert r.Some?;
    assert r.value == i;
  }

  lemma LookupMissing(entries: seq<Entry>, name: string)
    requires forall j :: 0 <= j < |entries| ==> entries[j].name != name
    ensures Lookup(entries, name) == None
  {
  }

  /**
   * Registering overwrites: afterwards the name maps to the new recognition,
   * every other name maps to what it mapped to before, keys stay unique, and
   * the gallery grows only when the name was new.
   */
  lemma PutOverwrites(entries: seq<Entry>, name: string, rec: Recognition, other: string)
    requires UniqueNames(entries)
    ensures UniqueNames(Put(entries, name, rec))
    ensures Lookup(Put(entries, name, rec), name) == Some(rec)
    ensures other != name ==> Lookup(Put(entries, name, rec), other) == Lookup(entries, other)
    ensures |Put(entries, name, rec)| == if Lookup(entries, name).Some? then |entries| else |entries| + 1
  {
    var p := Put(entries, name, rec);
    var pos := IndexOf(entries, name);
    var at := if pos.Some? then pos.value else |entries|;
    assert forall j :: 0 <= j < |p| ==> p[j].name == if j == at then name else entries[j].name;
    assert p[at] == Entry(name, rec);
    LookupAt(p, at);
    if other != name {
      var o := IndexOf(entries, other);
      if o.Some? {
        LookupAt(entries, o.value);
        LookupAt(p, o.value);
      } else {
        LookupMissing(p, other);
      }
    }
  }

  /** Every entry after a put is the new one or one that was there before. */
  lemma PutKeepsValues(entries: seq<Entry>, name: string, rec: Recognition)
    ensures forall k :: 0 <= k < |Put(entries, name, rec)| ==>
      Put(entries, name, rec)[k] == Entry(name, rec) || Put(entries, name, rec)[k] in entries
  {
  }

  // ----- doRecognition -----

  /** The threshold colouring: only below the threshold, green for id "0", red otherwise. */
  function Coloured(rec: Recognition): Recognition {
    if rec.distance < Threshold then rec.(color := if rec.id == "0" then ColorGreen else ColorRed) else rec
  }

  /** doRecognition applied to `rec` with the gallery `entries`. */
  function Recognized(entries: seq<Entry>, rec: Recognition): Recognition
    requires Comparable(entries, rec.extra)
  {
    var named :=
      if |entries| > 0 then
        match NearestIndex(entries, rec.extra)
        case Some(k) => rec.(title := entries[k].name, distance := DistanceTo(entries, rec.extra, k))
        case None => rec
      else rec;
    Coloured(named)
  }

  /**
   * What doRecognition yields: with an empty gallery the title and distance
   * are kept; otherwise they are the name and distance of the first nearest
   * entry. The colour changes only below the threshold.
   */
  lemma RecognizedMeaning(entries: seq<Entry>, rec: Recognition)
    requires Comparable(entries, rec.extra)
    ensures Recognized(entries, rec).id == rec.id && Recognized(entries, rec).extra == rec.extra
    ensures |entries| == 0 ==>
      Recognized(entries, rec).title == rec.title && Recognized(entries, rec).distance == rec.distance
    ensures |entries| > 0 ==> exists k ::
      && IsFirstMinimum(entries, rec.extra, k)
      && Recognized(entries, rec).title == entries[k].name
      && Recognized(entries, rec).distance == DistanceTo(entries, rec.extra, k)
    ensures Recognized(entries, rec).distance < Threshold ==>
      Recognized(entries, rec).color == if rec.id == "0" then ColorGreen else ColorRed
    ensures Recognized(entries, rec).distance >= Threshold ==> Recognized(entries, rec).color == rec.color
  {
    if |entries| > 0 {
      NearestIsFirstMinimum(entries, rec.extra);
    }
  }

  /**
   * With an empty gallery a fresh recognition stays "?" at distance MAX,
   * which is never below the threshold, so it stays uncoloured.
   */
  lemma EmptyGalleryUnknown(emb: seq<real>)
    ensures Recognized([], Initial(emb)) == Initial(emb)
    ensures Initial(emb).title == "?" && Initial(emb).distance >= Threshold && Initial(emb).color == 0
  {
  }

  /**
   * Register-then-recognise: once an entry holds exactly the query
   * embedding, the recognition has distance 0 and is coloured green (the
   * fresh recognition's id is "0").
   */
  lemma RegisteredFaceIsGreen(entries: seq<Entry>, emb: seq<real>, k: int)
    requires Comparable(entries, emb) && 0 <= k < |entries| && entries[k].rec.extra == emb
    ensures Recognized(entries, Initial(emb)).distance == 0.0
    ensures Recognized(entries, Initial(emb)).color == ColorGreen
  {
    DistanceZeroIff(emb, entries[k].rec.extra);
    assert entries[k].rec.extra[..|emb|] == emb;
    NearestIsFirstMinimum(entries, emb);
    var m := NearestIndex(entries, emb).value;
    assert DistanceTo(entries, emb, m) <= DistanceTo(entries, emb, k) == 0.0;
  }

  /**
   * The red branch is dead code for the recognitions `recognize` builds:
   * their id is always "0", so the colour stays 0 or becomes green.
   */
  lemma NeverRed(entries: seq<Entry>, emb: seq<real>)
    requires Comparable(entries, emb)
    ensures Recognized(entries, Initial(emb)).color in {0, ColorGreen}
  {
  }
}
