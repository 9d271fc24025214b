/** Helpers from pkg/utils/tools.go. */
module Tools {

  /** `KeyInList`: a left-to-right scan for an element equal to `key`. */
  function KeyInList(key: string, arr: seq<string>): (found: bool)
    ensures found <==> exists i | 0 <= i < |arr| :: arr[i] == key
    decreases |arr|
  {
    if |arr| == 0 then false
    else if arr[0] == key then true
    else KeyInList(key, arr[1..])
  }

  /** Membership depends only on which strings the list holds, not on their order or repetitions. */
  lemma KeyInListOnlyElementsMatter(key: string, a: seq<string>, b: seq<string>)
    requires forall x :: x in a <==> x in b
    ensures KeyInList(key, a) == KeyInList(key, b)
  {
    if KeyInList(key, a) {
      var i :| 0 <= i < |a| && a[i] == key;
      assert key in b;
    }
    if KeyInList(key, b) {
      var i :| 0 <= i < |b| && b[i] == key;
      assert key in a;
    }
  }

  /** Matching is exact: a list holding only longer strings never matches a prefix of them. */
  lemma KeyInListNoPrefixMatch(key: string, arr: seq<string>)
    requires forall i | 0 <= i < |arr| :: |arr[i]| > |key|
    ensures !KeyInList(key, arr)
  {
  }

  /** What `os.Stat` reported about a path. */
  datatype StatOutcome = Found | NotExist | OtherError

  /** `Exists`: only a not-exist error means absent; any other stat error still counts as present. */
  function Exists(stat: StatOutcome): (present: bool)
    ensures !present <==> stat == NotExist
  {
    match stat
    case NotExist => false
    case OtherError => true
    case Found => true
  }
}
