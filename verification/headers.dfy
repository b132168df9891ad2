/** Header lookup in a Gmail message payload (`get_header_value`). */
module Headers {
  import opened Types

  /** One entry of `payload['headers']`: a `{'name': ..., 'value': ...}` record. */
  datatype Header = Header(name: string, value: string)

  /** Index `i` holds the first header whose name is exactly `key`. */
  ghost predicate FirstNamed(headers: seq<Header>, key: string, i: int) {
    && 0 <= i < |headers|
    && headers[i].name == key
    && forall k :: 0 <= k < i ==> headers[k].name != key
  }

  /** No header is named exactly `key`. */
  ghost predicate NoneNamed(headers: seq<Header>, key: string) {
    forall k :: 0 <= k < |headers| ==> headers[k].name != key
  }

  /** The value of the first header, in list order, whose name equals `key`
      case-sensitively; `None` when there is no such header. */
  function GetHeaderValue(headers: seq<Header>, key: string): Option<string>
  {
    if |headers| == 0 then None
    else if headers[0].name == key then Some(headers[0].value)
    else GetHeaderValue(headers[1..], key)
  }

  /** `GetHeaderValue` is a first-match search: it returns `None` exactly
      when no header is named `key`, and otherwise the value of the first
      header so named (later headers of the same name are ignored). */
  lemma {:induction false} GetHeaderValueIsFirstMatch(headers: seq<Header>, key: string)
    ensures GetHeaderValue(headers, key).None? <==> NoneNamed(headers, key)
    ensures GetHeaderValue(headers, key).Some? ==>
              exists i :: FirstNamed(headers, key, i) && GetHeaderValue(headers, key).value == headers[i].value
    decreases |headers|
  {
    if |headers| == 0 {
    } else if headers[0].name == key {
      assert FirstNamed(headers, key, 0);
    } else {
      var tail := headers[1..];
      GetHeaderValueIsFirstMatch(tail, key);
      assert NoneNamed(tail, key) <==> NoneNamed(headers, key) by {
        forall k | 0 <= k < |tail| ensures tail[k] == headers[k + 1] { }
      }
      if GetHeaderValue(tail, key).Some? {
        var j :| FirstNamed(tail, key, j) && GetHeaderValue(tail, key).value == tail[j].value;
        assert FirstNamed(headers, key, j + 1);
      }
    }
  }
}
