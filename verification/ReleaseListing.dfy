/** A GitHub release's assets as a name-ordered list that only grows, and what
    reading it page by page can miss. */
module ReleaseListing {

  const PAGE: nat := 100
  const LIMIT: nat := 1000

  datatype Asset = Asset(id: nat, name: string, uploaded: bool, content: string)

  // ----- name order -----

  predicate Less(a: string, b: string) {
    b != "" && (a == "" || a[0] < b[0] || (a[0] == b[0] && Less(a[1..], b[1..])))
  }

  lemma {:induction false} LessAsymmetric(a: string, b: string)
    requires Less(a, b)
    ensures !Less(b, a) && a != b
  {
    if a != "" && a[0] == b[0] {
      LessAsymmetric(a[1..], b[1..]);
    }
  }

  lemma {:induction false} LessTransitive(a: string, b: string, c: string)
    requires Less(a, b) && Less(b, c)
    ensures Less(a, c)
  {
    if a != "" && a[0] == b[0] && b[0] == c[0] {
      LessTransitive(a[1..], b[1..], c[1..]);
    }
  }

  lemma {:induction false} LessTotal(a: string, b: string)
    ensures a == b || Less(a, b) || Less(b, a)
  {
    if a != "" && b != "" && a[0] == b[0] {
      LessTotal(a[1..], b[1..]);
      assert a == [a[0]] + a[1..] && b == [b[0]] + b[1..];
    }
  }

  // ----- listings -----

  predicate Sorted(listing: seq<Asset>) {
    forall i, j | 0 <= i < j < |listing| :: Less(listing[i].name, listing[j].name)
  }

  predicate Grew(before: seq<Asset>, after: seq<Asset>) {
    forall a <- before :: a in after
  }

  function Names(listing: seq<Asset>): set<string> {
    set a <- listing :: a.name
  }

  lemma SortedUnique(listing: seq<Asset>, a: Asset, b: Asset)
    requires Sorted(listing) && a in listing && b in listing && a.name == b.name
    ensures a == b
  {
    var i :| 0 <= i < |listing| && listing[i] == a;
    var j :| 0 <= j < |listing| && listing[j] == b;
    if i < j {
      LessAsymmetric(a.name, b.name);
    } else if j < i {
      LessAsymmetric(b.name, a.name);
    }
  }

  /** Insertions move an asset only towards the end. */
  lemma {:induction false} IndexMovesUp(before: seq<Asset>, after: seq<Asset>, i: nat, j: nat)
    requires Sorted(before) && Sorted(after) && Grew(before, after)
    requires i < |before| && j < |after| && before[i] == after[j]
    ensures i <= j
  {
    if i > 0 {
      assert before[i - 1] in after;
      var k :| 0 <= k < |after| && after[k] == before[i - 1];
      IndexMovesUp(before, after, i - 1, k);
      LessAsymmetric(before[i - 1].name, before[i].name);
    }
  }

  function InsertSorted(listing: seq<Asset>, a: Asset): seq<Asset> {
    if listing == [] || Less(a.name, listing[0].name) then [a] + listing
    else [listing[0]] + InsertSorted(listing[1..], a)
  }

  lemma {:induction false} InsertKeepsSorted(listing: seq<Asset>, a: Asset)
    requires Sorted(listing) && a.name !in Names(listing)
    ensures Sorted(InsertSorted(listing, a)) && |InsertSorted(listing, a)| == |listing| + 1
    ensures a in InsertSorted(listing, a)
    ensures forall b :: b in InsertSorted(listing, a) <==> b == a || b in listing
  {
    var longer := InsertSorted(listing, a);
    if listing == [] || Less(a.name, listing[0].name) {
      forall j | 0 <= j < |listing| ensures Less(a.name, listing[j].name) {
        if j > 0 {
          LessTransitive(a.name, listing[0].name, listing[j].name);
        }
      }
    } else {
      var rest := InsertSorted(listing[1..], a);
      assert forall b <- listing[1..] :: b in listing;
      InsertKeepsSorted(listing[1..], a);
      assert listing[0] in listing;
      LessTotal(a.name, listing[0].name);
      forall j | 0 <= j < |rest| ensures Less(listing[0].name, rest[j].name) {
        if rest[j] != a {
          assert rest[j] in listing[1..];
          var k :| 0 <= k < |listing[1..]| && listing[1..][k] == rest[j];
          assert Less(listing[0].name, listing[k + 1].name);
        }
      }
      assert listing == [listing[0]] + listing[1..];
    }
  }

  // ----- pages -----

  function Page(listing: seq<Asset>, page: nat): seq<Asset>
    requires page >= 1
  {
    var from := PAGE * (page - 1);
    if from >= |listing| then []
    else if from + PAGE <= |listing| then listing[from..from + PAGE]
    else listing[from..]
  }

  /** Every asset that was there at the start and now stands before `seen` was read. */
  predicate ReadUpTo(start: seq<Asset>, now: seq<Asset>, seen: nat, result: map<string, Asset>) {
    forall i | 0 <= i < |now| && i < seen && now[i] in start ::
      now[i].name in result && result[now[i].name] == now[i]
  }

  /** Growth never uncovers a starting asset that was not read yet. */
  lemma GrowthHidesNothing(start: seq<Asset>, before: seq<Asset>, after: seq<Asset>, seen: nat,
                           result: map<string, Asset>)
    requires Sorted(before) && Sorted(after) && Grew(start, before) && Grew(before, after)
    requires ReadUpTo(start, before, seen, result)
    ensures ReadUpTo(start, after, seen, result)
  {
    forall j | 0 <= j < |after| && j < seen && after[j] in start
      ensures after[j].name in result && result[after[j].name] == after[j]
    {
      assert after[j] in before;
      var i :| 0 <= i < |before| && before[i] == after[j];
      IndexMovesUp(before, after, i, j);
    }
  }

  /** What a scan collected: real assets under their own names. */
  predicate Collected(result: map<string, Asset>, listing: seq<Asset>) {
    forall name <- result :: result[name].name == name && result[name] in listing
  }

  /** The collected set lies between two states of the release. */
  predicate Between(first: seq<Asset>, result: map<string, Asset>, last: seq<Asset>) {
    && Collected(result, last)
    && forall a <- first :: a.name in result && result[a.name] == a
  }

  lemma BetweenIds(first: seq<Asset>, before: map<string, Asset>, result: map<string, Asset>, last: seq<Asset>)
    requires Collected(before, first) && Between(first, result, last)
    ensures forall id :: id in Ids(before) ==> id in Ids(result)
  {
  }

  function Ids(result: map<string, Asset>): set<nat> {
    set name | name in result :: result[name].id
  }
}
