/** The batch importer: fixed-size chunks, each sorted by its date strings and posted
    to the bulk-import endpoint, stopping at the first rejected chunk. */
module Importer {
  import opened Types
  import opened Records
  import opened Strings

  const ChunkSize: nat := 10

  function Flatten(cs: seq<seq<Activity>>): seq<Activity> {
    if cs == [] then [] else cs[0] + Flatten(cs[1..])
  }

  /** `lst[i:i + n]` for `i` in `range(0, len(lst), n)`. */
  function Chunks(lst: seq<Activity>, n: nat): seq<seq<Activity>>
    requires n > 0
    decreases |lst|
  {
    if |lst| == 0 then []
    else if |lst| <= n then [lst]
    else [lst[..n]] + Chunks(lst[n..], n)
  }

  /** The chunks, concatenated, give back the list; each holds between one and `n`
      activities, and all but the last exactly `n`. */
  lemma {:induction false} ChunksPartition(lst: seq<Activity>, n: nat)
    requires n > 0
    ensures var r := Chunks(lst, n);
            && Flatten(r) == lst
            && (forall i :: 0 <= i < |r| ==> 0 < |r[i]| <= n)
            && (forall i :: 0 <= i < |r| - 1 ==> |r[i]| == n)
    decreases |lst|
  {
    if 0 < |lst| <= n {
      assert Flatten([lst]) == lst + Flatten([]);
    } else if |lst| > n {
      var rest := Chunks(lst[n..], n);
      ChunksPartition(lst[n..], n);
      assert Chunks(lst, n) == [lst[..n]] + rest;
      assert Flatten([lst[..n]] + rest) == lst[..n] + Flatten(rest) by {
        assert ([lst[..n]] + rest)[1..] == rest;
      }
      assert lst[..n] + lst[n..] == lst;
    }
  }

  function Min(a: int, b: int): int {
    if a < b then a else b
  }

  /** The chunk at position `i` is the slice of `lst` starting at `i * 10`. */
  lemma {:induction false} ChunkAt(lst: seq<Activity>, i: nat)
    requires i < |Chunks(lst, ChunkSize)|
    ensures 10 * i < |lst|
    ensures Chunks(lst, ChunkSize)[i] == lst[10 * i .. Min(10 * i + 10, |lst|)]
    decreases |lst|
  {
    if |lst| <= 10 {
      assert Chunks(lst, ChunkSize) == [lst];
    } else if i > 0 {
      var rest := lst[10..];
      assert Chunks(lst, ChunkSize) == [lst[..10]] + Chunks(rest, ChunkSize);
      ChunkAt(rest, i - 1);
      var lo, hi := 10 * (i - 1), Min(10 * i, |rest|);
      assert lo + 10 == 10 * i && lo <= hi <= |rest| && |rest| + 10 == |lst|;
      assert rest[lo..hi] == lst[lo + 10 .. hi + 10] by {
        forall k | 0 <= k < hi - lo ensures rest[lo..hi][k] == lst[lo + 10 .. hi + 10][k] {
          assert rest[lo + k] == lst[10 + lo + k];
        }
      }
    }
  }

  /** The number of chunks is the length divided by ten, rounded up. */
  lemma {:induction false} ChunkCount(lst: seq<Activity>)
    ensures |Chunks(lst, ChunkSize)| == (|lst| + 9) / 10
    decreases |lst|
  {
    if |lst| > 10 {
      ChunkCount(lst[10..]);
    }
  }

  lemma TwentyThreeActivities(lst: seq<Activity>)
    requires |lst| == 23
    ensures var cs := Chunks(lst, ChunkSize);
            |cs| == 3 && |cs[0]| == 10 && |cs[1]| == 10 && |cs[2]| == 3
  {
    var cs := Chunks(lst, ChunkSize);
    assert cs == [lst[..10]] + Chunks(lst[10..], 10);
    assert Chunks(lst[10..], 10) == [lst[10..][..10]] + Chunks(lst[10..][10..], 10);
    assert Chunks(lst[10..][10..], 10) == [lst[10..][10..]];
  }

  lemma {:induction false} FlattenMember(cs: seq<seq<Activity>>, i: nat, x: Activity)
    requires i < |cs| && x in cs[i]
    ensures x in Flatten(cs)
  {
    if i > 0 {
      FlattenMember(cs[1..], i - 1, x);
    }
  }

  /** Non-decreasing by the date string, as `sorted(..., key=lambda x: x["date"])` leaves it. */
  predicate SortedByDate(s: seq<Activity>) {
    forall i, j :: 0 <= i < j < |s| ==> !Less(s[j].date, s[i].date)
  }

  /** Puts `x` in front of the first element whose date is not smaller. */
  function Insert(x: Activity, ys: seq<Activity>): (r: seq<Activity>)
    ensures SortedByDate(ys) ==> SortedByDate(r)
    decreases |ys|, 0
  {
    if ys == [] then [x]
    else if Less(ys[0].date, x.date) then
      var rest := Insert(x, ys[1..]);
      assert ys == [ys[0]] + ys[1..];
      InsertPermutes(x, ys[1..]);
      InsertAfterSmaller(ys[0], x, ys[1..], rest);
      [ys[0]] + rest
    else
      InsertInFront(x, ys);
      [x] + ys
  }

  lemma {:induction false} InsertPermutes(x: Activity, ys: seq<Activity>)
    ensures multiset(Insert(x, ys)) == multiset(ys) + multiset{x}
    decreases |ys|, 1
  {
    if ys != [] && Less(ys[0].date, x.date) {
      InsertPermutes(x, ys[1..]);
      assert ys == [ys[0]] + ys[1..];
    }
  }

  lemma InsertAfterSmaller(y: Activity, x: Activity, ys: seq<Activity>, rest: seq<Activity>)
    requires Less(y.date, x.date)
    requires multiset(rest) == multiset(ys) + multiset{x}
    requires SortedByDate([y] + ys) ==> SortedByDate(rest)
    ensures SortedByDate([y] + ys) ==> SortedByDate([y] + rest)
  {
    if SortedByDate([y] + ys) {
      forall j | 0 <= j < |rest| ensures !Less(rest[j].date, y.date) {
        assert rest[j] in multiset(rest);
        assert rest[j] == x || rest[j] in multiset(ys);
        if rest[j] == x {
          LessAsymmetric(y.date, x.date);
        } else {
          assert rest[j] in ys;
          var k :| 0 <= k < |ys| && ys[k] == rest[j];
          assert ([y] + ys)[0] == y && ([y] + ys)[k + 1] == rest[j];
        }
      }
      assert forall i, j :: 0 < i < j < |rest| + 1 ==> ([y] + rest)[i] == rest[i - 1] && ([y] + rest)[j] == rest[j - 1];
    }
  }

  lemma InsertInFront(x: Activity, ys: seq<Activity>)
    requires ys != [] && !Less(ys[0].date, x.date)
    ensures SortedByDate(ys) ==> SortedByDate([x] + ys)
  {
    if SortedByDate(ys) {
      forall j | 0 <= j < |ys| ensures !Less(ys[j].date, x.date) {
        if j > 0 && Less(ys[j].date, x.date) {
          LessTotal(ys[0].date, ys[j].date);
          if Less(ys[0].date, ys[j].date) {
            LessTransitive(ys[0].date, ys[j].date, x.date);
          }
        }
      }
    }
  }

  /** Insertion sort by date; equal dates keep their input order, as Python's sort does. */
  function SortByDate(s: seq<Activity>): (r: seq<Activity>)
    ensures SortedByDate(r)
  {
    if s == [] then [] else Insert(s[0], SortByDate(s[1..]))
  }

  /** The sort keeps every activity, as often as it occurs. */
  lemma {:induction false} SortByDatePermutes(s: seq<Activity>)
    ensures multiset(SortByDate(s)) == multiset(s)
  {
    if s != [] {
      SortByDatePermutes(s[1..]);
      InsertPermutes(s[0], SortByDate(s[1..]));
      assert s == [s[0]] + s[1..];
    }
  }

  /** The activities of `s` whose date is `d`, in order. */
  function OfDate(s: seq<Activity>, d: string): seq<Activity> {
    if s == [] then [] else (if s[0].date == d then [s[0]] else []) + OfDate(s[1..], d)
  }

  /** Insertion puts `x` before every activity of its own date already in the list. */
  lemma {:induction false} InsertOfDate(x: Activity, ys: seq<Activity>, d: string)
    ensures OfDate(Insert(x, ys), d) == (if x.date == d then [x] else []) + OfDate(ys, d)
  {
    if ys != [] && Less(ys[0].date, x.date) {
      var y, rest := ys[0], Insert(x, ys[1..]);
      InsertOfDate(x, ys[1..], d);
      LessIrreflexive(x.date);
      assert ([y] + rest)[0] == y && ([y] + rest)[1..] == rest;
    } else {
      assert ([x] + ys)[0] == x && ([x] + ys)[1..] == ys;
    }
  }

  /** The sort is stable: for every date, the activities of that date keep their order. */
  lemma {:induction false} SortByDateStable(s: seq<Activity>, d: string)
    ensures OfDate(SortByDate(s), d) == OfDate(s, d)
  {
    if s != [] {
      SortByDateStable(s[1..], d);
      InsertOfDate(s[0], SortByDate(s[1..]), d);
    }
  }

  /** A request is rejected when the platform answers with any status but 201; a
      transport error is not a rejection. */
  predicate Rejected(r: Reply) {
    r.Status? && r.code != 201
  }

  /** The payloads posted for the chunks `cs`, the first of which is request number
      `i`: each chunk sorted by date, until a rejected request, which is the last. */
  function ImportLogFrom(cs: seq<seq<Activity>>, reply: nat -> Reply, i: nat): seq<seq<Activity>> {
    if cs == [] then []
    else [SortByDate(cs[0])] + (if Rejected(reply(i)) then [] else ImportLogFrom(cs[1..], reply, i + 1))
  }

  /** The payloads one import posts, in chunk order. */
  function ImportLog(bulk: seq<Activity>, reply: nat -> Reply): seq<seq<Activity>> {
    ImportLogFrom(Chunks(bulk, ChunkSize), reply, 0)
  }

  lemma {:induction false} ImportLogFromShape(cs: seq<seq<Activity>>, reply: nat -> Reply, i: nat)
    ensures var r := ImportLogFrom(cs, reply, i);
            && |r| <= |cs|
            && (|r| == 0 <==> |cs| == 0)
            && (forall k :: 0 <= k < |r| ==> r[k] == SortByDate(cs[k]))
            && ((forall k :: i <= k < i + |cs| ==> !Rejected(reply(k))) ==> |r| == |cs|)
            && (0 < |r| < |cs| ==> Rejected(reply(i + |r| - 1)))
            && (forall k :: i <= k < i + |r| - 1 ==> !Rejected(reply(k)))
  {
    if cs != [] {
      ImportLogFromShape(cs[1..], reply, i + 1);
      if !Rejected(reply(i)) {
        var rest := ImportLogFrom(cs[1..], reply, i + 1);
        assert ImportLogFrom(cs, reply, i) == [SortByDate(cs[0])] + rest;
        assert forall k :: 0 < k < |cs| ==> cs[1..][k - 1] == cs[k];
      }
    }
  }

  /** An import posts every chunk sorted by date, in chunk order, and stops after the
      first rejected chunk; it posts every chunk exactly when no chunk before the last is
      rejected. */
  lemma ImportLogShape(bulk: seq<Activity>, reply: nat -> Reply)
    ensures var chunks, r := Chunks(bulk, ChunkSize), ImportLog(bulk, reply);
            && |r| <= |chunks|
            && (forall i :: 0 <= i < |r| ==> r[i] == SortByDate(chunks[i]))
            && ((forall i :: 0 <= i < |chunks| ==> !Rejected(reply(i))) ==> |r| == |chunks|)
            && (|r| < |chunks| ==> |r| > 0 && Rejected(reply(|r| - 1)))
            && (forall i :: 0 <= i < |r| - 1 ==> !Rejected(reply(i)))
  {
    ImportLogFromShape(Chunks(bulk, ChunkSize), reply, 0);
  }

  /** The chunk loop of the import. `reply(i)` is the platform's answer to the i-th
      post; a transport error skips its chunk, a status other than 201 ends the import
      with False. `sent` records every payload posted. */
  method ImportAct(bulk: seq<Activity>, reply: nat -> Reply) returns (ok: bool, ghost sent: seq<seq<Activity>>)
    ensures var chunks := Chunks(bulk, ChunkSize);
            ok <==> forall i :: 0 <= i < |chunks| ==> !Rejected(reply(i))
    ensures sent == ImportLog(bulk, reply)
  {
    var chunks := Chunks(bulk, ChunkSize);
    sent := [];
    for i := 0 to |chunks|
      invariant sent + ImportLogFrom(chunks[i..], reply, i) == ImportLogFrom(chunks, reply, 0)
      invariant forall k :: 0 <= k < i ==> !Rejected(reply(k))
    {
      var payload := SortByDate(chunks[i]);
      assert ImportLogFrom(chunks[i..], reply, i)
          == [payload] + (if Rejected(reply(i)) then [] else ImportLogFrom(chunks[i + 1..], reply, i + 1)) by {
        assert chunks[i..][1..] == chunks[i + 1..];
      }
      sent := sent + [payload];
      var response := reply(i);
      // A transport error skips to the next chunk.
      if response.Status? && response.code != 201 {
        return false, sent;
      }
    }
    return true, sent;
  }

  /** Each posted payload holds exactly its chunk's activities, ordered by date. */
  lemma PayloadsArePermutationsOfChunks(bulk: seq<Activity>, reply: nat -> Reply, i: nat)
    requires i < |ImportLog(bulk, reply)|
    ensures var p := ImportLog(bulk, reply)[i];
            && i < |Chunks(bulk, ChunkSize)|
            && SortedByDate(p) && multiset(p) == multiset(Chunks(bulk, ChunkSize)[i]) && 0 < |p| <= ChunkSize
  {
    var p := ImportLog(bulk, reply)[i];
    ImportLogShape(bulk, reply);
    ChunksPartition(bulk, ChunkSize);
    SortByDatePermutes(Chunks(bulk, ChunkSize)[i]);
    assert |p| == |multiset(p)|;
  }

  /** Within a posted payload, the activities of one date appear in their chunk's order. */
  lemma PayloadsKeepChunkOrderPerDate(bulk: seq<Activity>, reply: nat -> Reply, i: nat, d: string)
    requires i < |ImportLog(bulk, reply)|
    ensures i < |Chunks(bulk, ChunkSize)|
    ensures OfDate(ImportLog(bulk, reply)[i], d) == OfDate(Chunks(bulk, ChunkSize)[i], d)
  {
    ImportLogShape(bulk, reply);
    SortByDateStable(Chunks(bulk, ChunkSize)[i], d);
  }

  /** An activity in a posted payload is one of the imported activities. */
  lemma PayloadMember(bulk: seq<Activity>, reply: nat -> Reply, i: nat, x: Activity)
    requires i < |ImportLog(bulk, reply)| && x in ImportLog(bulk, reply)[i]
    ensures x in bulk
  {
    var chunks := Chunks(bulk, ChunkSize);
    ImportLogShape(bulk, reply);
    SortByDatePermutes(chunks[i]);
    assert x in multiset(ImportLog(bulk, reply)[i]);
    assert x in chunks[i];
    FlattenMember(chunks, i, x);
    ChunksPartition(bulk, ChunkSize);
  }
}
