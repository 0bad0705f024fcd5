/**
 * The persisted wallpaper list: items keyed by their image URI, each with an
 * optional crop in bitmap pixels, and the list operations the activities use
 * on it (Kotlin's indexOfFirst, find and remove, and the insert-or-update of
 * a saved crop).
 */
module WallpaperItems {
  import opened Wrappers
  import opened Geometry

  /** A crop in bitmap pixels as it is stored (ImageDisplayScreen.kt:30-32). */
  datatype SerializableRect = SerializableRect(left: int, top: int, right: int, bottom: int) {
    /** toRect keeps all four edges. */
    function ToRect(): (r: Rect)
      ensures r.left == left && r.top == top && r.right == right && r.bottom == bottom
    {
      Rect(left, top, right, bottom)
    }
  }

  /** The stored form of a cropped rectangle (CropImageActivity.kt:124);
      toRect gives the rectangle back. */
  function FromRect(r: Rect): (s: SerializableRect)
    ensures s.ToRect() == r
  {
    SerializableRect(r.left, r.top, r.right, r.bottom)
  }

  /** ImageDisplayScreen.kt:34. A URI is kept as its string form. */
  datatype WallpaperItem = WallpaperItem(uriString: string, cropRect: Option<SerializableRect>)

  /** `WallpaperItem(uriString)`: the crop defaults to absent. */
  function NewItem(uriString: string): (item: WallpaperItem)
    ensures item.uriString == uriString && item.cropRect.None?
  {
    WallpaperItem(uriString, None)
  }

  /** No URI occurs twice. */
  predicate UniqueUris(items: seq<WallpaperItem>) {
    forall i, j :: 0 <= i < j < |items| ==> items[i].uriString != items[j].uriString
  }

  /** `indexOfFirst { it.uriString == uri }`: the first index holding the URI, or -1. */
  function IndexOfFirst(items: seq<WallpaperItem>, uri: string): (i: int)
    ensures -1 <= i < |items|
    ensures i == -1 <==> forall k :: 0 <= k < |items| ==> items[k].uriString != uri
    ensures 0 <= i ==> items[i].uriString == uri
    ensures 0 <= i ==> forall k :: 0 <= k < i ==> items[k].uriString != uri
  {
    if |items| == 0 then -1
    else if items[0].uriString == uri then 0
    else
      var j := IndexOfFirst(items[1..], uri);
      if j == -1 then -1 else j + 1
  }

  /** `find { it.uriString == uri }`: the first item holding the URI, if any. */
  function Find(items: seq<WallpaperItem>, uri: string): (r: Option<WallpaperItem>)
    ensures r.None? <==> forall k :: 0 <= k < |items| ==> items[k].uriString != uri
    ensures r.Some? ==> r.value.uriString == uri && r.value in items
    ensures r.Some? ==> r.value == items[IndexOfFirst(items, uri)]
  {
    var i := IndexOfFirst(items, uri);
    if i == -1 then None else Some(items[i])
  }

  /** MutableList.remove(element): drops the first element equal to `x`,
      and changes nothing when there is none. */
  function RemoveFirst(items: seq<WallpaperItem>, x: WallpaperItem): (r: seq<WallpaperItem>)
    ensures x in items ==> |r| == |items| - 1
    ensures x !in items ==> r == items
  {
    if |items| == 0 then []
    else if items[0] == x then items[1..]
    else [items[0]] + RemoveFirst(items[1..], x)
  }

  /** Exactly one occurrence of `x` goes, when there is one, and nothing else. */
  lemma {:induction false} RemoveFirstMultiset(items: seq<WallpaperItem>, x: WallpaperItem)
    ensures multiset(RemoveFirst(items, x)) == multiset(items) - multiset{x}
  {
    if |items| > 0 {
      assert items == [items[0]] + items[1..];
      RemoveFirstMultiset(items[1..], x);
    }
  }

  /** Removing `x` where it first occurs at `i` leaves the items around `i`. */
  lemma {:induction false} RemoveFirstAt(items: seq<WallpaperItem>, x: WallpaperItem, i: nat)
    requires i < |items| && items[i] == x
    requires forall k :: 0 <= k < i ==> items[k] != x
    ensures RemoveFirst(items, x) == items[..i] + items[i + 1..]
  {
    var tail := items[1..];
    if i > 0 {
      assert items[0] != x;
      assert forall k :: 0 <= k < i - 1 ==> tail[k] == items[k + 1];
      RemoveFirstAt(tail, x, i - 1);
      assert RemoveFirst(items, x) == [items[0]] + RemoveFirst(tail, x);
      assert items[..i] == [items[0]] + tail[..i - 1];
      assert items[i + 1..] == tail[i..];
    }
  }

  /**
   * Removing the item that find returned removes exactly the first item with
   * that URI: every item before it has another URI, so it is also the first
   * element equal to the found item.
   */
  lemma RemoveFound(items: seq<WallpaperItem>, uri: string)
    requires Find(items, uri).Some?
    ensures var i := IndexOfFirst(items, uri);
      RemoveFirst(items, Find(items, uri).value) == items[..i] + items[i + 1..]
  {
    var i := IndexOfFirst(items, uri);
    RemoveFirstAt(items, items[i], i);
  }

  /** The list after saving `item`'s crop (CropImageActivity.kt:123-130): the
      first item with the same URI is replaced in place, else `item` is appended. */
  function Upsert(items: seq<WallpaperItem>, item: WallpaperItem): (r: seq<WallpaperItem>)
    ensures var i := IndexOfFirst(items, item.uriString);
      && (0 <= i ==> |r| == |items| && r[i] == item)
      && (0 <= i ==> forall k :: 0 <= k < |items| && k != i ==> r[k] == items[k])
      && (i == -1 ==> r == items + [item])
  {
    var i := IndexOfFirst(items, item.uriString);
    if i != -1 then items[i := item] else items + [item]
  }

  /** After the save, looking the URI up yields the saved item. */
  lemma UpsertThenFind(items: seq<WallpaperItem>, item: WallpaperItem)
    ensures Find(Upsert(items, item), item.uriString) == Some(item)
  {
    var r := Upsert(items, item);
    var i := IndexOfFirst(items, item.uriString);
    if i == -1 {
      assert r[|items|] == item;
      assert IndexOfFirst(r, item.uriString) == |items|;
    } else {
      assert forall k :: 0 <= k < i ==> r[k].uriString != item.uriString;
      assert IndexOfFirst(r, item.uriString) == i;
    }
  }

  /** Looking up any other URI gives the same answer before and after the save. */
  lemma UpsertKeepsOtherUris(items: seq<WallpaperItem>, item: WallpaperItem, uri: string)
    requires uri != item.uriString
    ensures Find(Upsert(items, item), uri) == Find(items, uri)
  {
    var r := Upsert(items, item);
    var j := IndexOfFirst(items, uri);
    if j == -1 {
      assert forall k :: 0 <= k < |r| ==> r[k].uriString != uri by {
        forall k | 0 <= k < |r| ensures r[k].uriString != uri {
          if k < |items| && r[k] != items[k] { assert r[k] == item; }
        }
      }
    } else {
      assert r[j] == items[j];
      assert IndexOfFirst(r, uri) == j;
    }
  }

  /** Saving the same crop twice is the same as saving it once. */
  lemma UpsertIdempotent(items: seq<WallpaperItem>, item: WallpaperItem)
    ensures Upsert(Upsert(items, item), item) == Upsert(items, item)
  {
    var r := Upsert(items, item);
    UpsertThenFind(items, item);
    var i := IndexOfFirst(r, item.uriString);
    assert r[i] == item;
    assert r[i := item] == r;
  }

  /** A list without repeated URIs keeps that property through a save. */
  lemma UpsertKeepsUnique(items: seq<WallpaperItem>, item: WallpaperItem)
    requires UniqueUris(items)
    ensures UniqueUris(Upsert(items, item))
  {
    var r := Upsert(items, item);
    var i := IndexOfFirst(items, item.uriString);
    forall a, b | 0 <= a < b < |r| ensures r[a].uriString != r[b].uriString {
      if i == -1 {
        if b == |items| { assert r[a] == items[a]; }
        else { assert r[a] == items[a] && r[b] == items[b]; }
      } else {
        if a == i { assert r[b] == items[b]; }
        else if b == i { assert r[a] == items[a]; }
        else { assert r[a] == items[a] && r[b] == items[b]; }
      }
    }
  }

  /** Position `k` of the list without index `i` holds the item from `k` or `k + 1`. */
  lemma SkipIndex(items: seq<WallpaperItem>, i: nat, k: nat)
    requires i < |items| && k < |items| - 1
    ensures (items[..i] + items[i + 1..])[k] == items[if k < i then k else k + 1]
  {
    if k < i {
      assert (items[..i] + items[i + 1..])[k] == items[..i][k];
    } else {
      assert (items[..i] + items[i + 1..])[k] == items[i + 1..][k - i];
    }
  }

  /** Deleting by URI keeps a list without repeated URIs free of them, and
      the URI is then gone. */
  lemma RemoveFoundKeepsUnique(items: seq<WallpaperItem>, uri: string)
    requires UniqueUris(items) && Find(items, uri).Some?
    ensures var r := RemoveFirst(items, Find(items, uri).value);
      UniqueUris(r) && Find(r, uri).None?
  {
    var i := IndexOfFirst(items, uri);
    RemoveFound(items, uri);
    var r := items[..i] + items[i + 1..];
    forall a, b | 0 <= a < b < |r| ensures r[a].uriString != r[b].uriString {
      SkipIndex(items, i, a);
      SkipIndex(items, i, b);
    }
    forall k | 0 <= k < |r| ensures r[k].uriString != uri {
      SkipIndex(items, i, k);
    }
  }

  /** `mapNotNull { Uri.parse(it.uriString) }`: one URI per item, in item order
      (Uri.parse never yields null). */
  function DisplayUris(items: seq<WallpaperItem>): (uris: seq<string>)
    ensures |uris| == |items|
    ensures forall k :: 0 <= k < |items| ==> uris[k] == items[k].uriString
  {
    if |items| == 0 then [] else [items[0].uriString] + DisplayUris(items[1..])
  }
}
