/** What a history page holds, told by the filters and by the fields of the stored rows
    (pkg/attention-history-filter.go:33-105, pkg/attention-store-impl.go:1123-1223). */
module HistoryFields {
  import opened Text
  import opened Calendar
  import opened Items
  import opened Lex
  import opened Derived
  import opened Indexes
  import opened Prefilter
  import opened History

  /** The filters name no producer, or the item's. */
  ghost predicate ProducerAdmitted(filters: seq<Filter>, producerID: string) {
    || (forall i, j :: 0 <= i < |filters| && 0 <= j < |filters[i].producers| ==> filters[i].producers[j] == "")
    || (producerID != ""
        && exists i, j :: 0 <= i < |filters| && 0 <= j < |filters[i].producers|
                          && filters[i].producers[j] == producerID)
  }

  /** The last filter with a prefix decides: the key is that prefix and some text. */
  ghost predicate KeyAdmitted(filters: seq<Filter>, dedupKey: string) {
    forall i :: 0 <= i < |filters| && filters[i].prefix != ""
                && (forall j :: i < j < |filters| ==> filters[j].prefix == "") ==>
      exists rest :: dedupKey == filters[i].prefix + rest
  }

  /** A page shows the row: the filters admit it and it is not an open row at or past its deadline. */
  ghost predicate HistoryShows(filters: seq<Filter>, item: Item, now: Instant) {
    && ProducerAdmitted(filters, item.producerID) && KeyAdmitted(filters, item.dedupKey)
    && !(item.state == Open && item.expiresAt.Some? && item.expiresAt.value <= now)
  }

  lemma {:induction false} LastPrefix(filters: seq<Filter>)
    ensures MergedPrefix(filters) == "" <==> forall i :: 0 <= i < |filters| ==> filters[i].prefix == ""
    ensures MergedPrefix(filters) != "" ==>
              exists i :: 0 <= i < |filters| && filters[i].prefix == MergedPrefix(filters)
                          && forall j :: i < j < |filters| ==> filters[j].prefix == ""
  {
    if filters != [] {
      var front, n := filters[..|filters| - 1], |filters| - 1;
      LastPrefix(front);
      assert forall i :: 0 <= i < n ==> front[i] == filters[i];
      if filters[n].prefix == "" && MergedPrefix(front) != "" {
        var i :| 0 <= i < n && front[i].prefix == MergedPrefix(front)
                 && forall j :: i < j < n ==> front[j].prefix == "";
        assert filters[i].prefix == MergedPrefix(filters) && forall j :: i < j < |filters| ==> filters[j].prefix == "";
      }
    }
  }

  lemma PrefixAndRest(p: string, s: string)
    ensures IsPrefix(p, s) <==> exists rest :: s == p + rest
  {
    if IsPrefix(p, s) { assert s == p + s[|p|..]; }
  }

  lemma KeyByFilters(m: Matcher, filters: seq<Filter>, dedupKey: string)
    requires Builds(m, filters)
    ensures (m.prefix != "" ==> IsPrefix(m.prefix, dedupKey)) <==> KeyAdmitted(filters, dedupKey)
  {
    hide IsPrefix, MergedIds, Needled;
    LastPrefix(filters);
    PrefixAndRest(m.prefix, dedupKey);
    if m.prefix != "" {
      var i :| 0 <= i < |filters| && filters[i].prefix == m.prefix
               && forall j :: i < j < |filters| ==> filters[j].prefix == "";
      forall k | 0 <= k < |filters| && filters[k].prefix != ""
                 && (forall j :: k < j < |filters| ==> filters[j].prefix == "")
        ensures k == i {}
    }
  }

  lemma NamedIsMerged(filters: seq<Filter>, i: nat, j: nat)
    requires i < |filters| && j < |filters[i].producers|
    ensures filters[i].producers[j] == "" || filters[i].producers[j] in MergedIds(filters)
  {
  }

  lemma ProducerByFilters(m: Matcher, filters: seq<Filter>, producerID: string)
    requires Builds(m, filters)
    ensures (m.ids != {} ==> producerID in m.ids) <==> ProducerAdmitted(filters, producerID)
  {
    hide Needled;
    if m.ids == {} {
      forall i, j | 0 <= i < |filters| && 0 <= j < |filters[i].producers| ensures filters[i].producers[j] == "" {
        NamedIsMerged(filters, i, j);
      }
    } else {
      var p :| p in m.ids;
      var i, j :| 0 <= i < |filters| && 0 <= j < |filters[i].producers| && filters[i].producers[j] != ""
                  && filters[i].producers[j] == p;
    }
  }

  lemma VisibleByFields(m: Matcher, filters: seq<Filter>, item: Item, now: Instant)
    requires Builds(m, filters)
    ensures Visible(m, item, now) <==> HistoryShows(filters, item, now)
  {
    hide Builds, ProducerAdmitted, KeyAdmitted, IsPrefix;
    KeyByFilters(m, filters, item.dedupKey);
    ProducerByFilters(m, filters, item.producerID);
  }

  /** The history by fields: a stored row is in it exactly when the filters and its deadline let it be, it
      holds nothing else, and it runs from the latest creation time down, ties by id. */
  lemma HistoryByFields(rows: seq<Item>, items: map<string, Item>, m: Matcher, filters: seq<Filter>, now: Instant)
    requires IsHistory(rows, items, m, now) && Builds(m, filters)
    requires forall k :: k in items ==> items[k].itemID == k
    ensures forall k :: k in items ==> (items[k] in rows <==> HistoryShows(filters, items[k], now))
    ensures forall x :: x in rows ==> x.itemID in items && items[x.itemID] == x
    ensures forall i, j :: 0 <= i < j < |rows| ==>
              rows[j].createdAt < rows[i].createdAt
              || (rows[j].createdAt == rows[i].createdAt && Less(rows[j].itemID, rows[i].itemID))
  {
    hide Visible, HistoryShows, Builds, Less;
    forall k | k in items ensures Visible(m, items[k], now) <==> HistoryShows(filters, items[k], now) {
      VisibleByFields(m, filters, items[k], now);
    }
    forall i, j | 0 <= i < j < |rows| ensures Newer(rows[i], rows[j]) {}
  }

  /** A page, place by place: up to limit rows from the offset on, all of them when the limit is not
      positive. */
  lemma SlicePlaces(rows: seq<Item>, limit: int, offset: nat)
    ensures var page := Slice(rows, limit, offset);
            && |page| == (if |rows| <= offset then 0
                          else if limit <= 0 || |rows| - offset <= limit then |rows| - offset else limit)
            && forall i :: 0 <= i < |page| ==> page[i] == rows[offset + i]
  {
  }
}
