/** PretrainingLongTextHandler.handle: the session segmenter run over only the rows of
    customers whose summary counts more than two customer messages. */
module LongTextSegmenter {
  import opened Segmenter

  /** One row of the per-customer summary table (`customer_id`, `num_c_msg`). */
  datatype CustomerSummary = CustomerSummary(customerId: int, numCustomerMessages: int)

  const MinCustomerMessages: int := 2

  /** The customers whose summary row has more than two customer messages. */
  function EligibleIds(summary: seq<CustomerSummary>): (ids: set<int>)
    ensures forall id :: id in ids <==>
              exists k :: 0 <= k < |summary| && summary[k].customerId == id
                          && summary[k].numCustomerMessages > MinCustomerMessages
  {
    set k | 0 <= k < |summary| && summary[k].numCustomerMessages > MinCustomerMessages
      :: summary[k].customerId
  }

  /** The rows whose customer is in `ids`, in their original order. */
  function KeepCustomers(rows: seq<Row>, ids: set<int>): (kept: seq<Row>)
    ensures |kept| <= |rows|
    ensures forall k :: 0 <= k < |kept| ==> kept[k].customerId in ids
    decreases |rows|
  {
    if rows == [] then []
    else (if rows[0].customerId in ids then [rows[0]] else []) + KeepCustomers(rows[1..], ids)
  }

  /** A row survives the filter exactly when its customer is eligible. */
  lemma {:induction false} KeepCustomersMembers(rows: seq<Row>, ids: set<int>)
    ensures forall r :: r in KeepCustomers(rows, ids) <==> r in rows && r.customerId in ids
    decreases |rows|
  {
    if rows != [] {
      KeepCustomersMembers(rows[1..], ids);
      assert rows == [rows[0]] + rows[1..];
    }
  }

  /** The filter works row by row: filtering a concatenation concatenates the filtered
      parts, so the surviving rows keep their relative order. */
  lemma {:induction false} KeepCustomersAppend(a: seq<Row>, b: seq<Row>, ids: set<int>)
    ensures KeepCustomers(a + b, ids) == KeepCustomers(a, ids) + KeepCustomers(b, ids)
    decreases |a|
  {
    if a == [] {
      assert a + b == b;
    } else {
      assert (a + b)[0] == a[0];
      assert (a + b)[1..] == a[1..] + b;
      KeepCustomersAppend(a[1..], b, ids);
    }
  }

  /** When every row is eligible the filter changes nothing, and the long-text handler
      agrees with the plain one. */
  lemma {:induction false} KeepAllCustomers(rows: seq<Row>, ids: set<int>)
    requires forall k :: 0 <= k < |rows| ==> rows[k].customerId in ids
    ensures KeepCustomers(rows, ids) == rows
    decreases |rows|
  {
    if rows != [] {
      KeepAllCustomers(rows[1..], ids);
      assert rows == [rows[0]] + rows[1..];
    }
  }

  /** The lines returned by the long-text handler. */
  method SegmentLong(rows: seq<Row>, summary: seq<CustomerSummary>) returns (data: seq<string>)
    ensures data == Segmented(KeepCustomers(rows, EligibleIds(summary)))
    ensures |data| == |KeepCustomers(rows, EligibleIds(summary))|
                      + Changes(KeepCustomers(rows, EligibleIds(summary)))
  {
    var ids := EligibleIds(summary);
    var kept := KeepCustomers(rows, ids);
    data := Segment(kept);
  }
}
