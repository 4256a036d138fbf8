/**
  The credential data as it is stored on disk: a JSON object mapping each user
  to a JSON object holding the OAuth fields (`access_token`, `refresh_token`,
  `expires_at`, ...).
 */
module TokenData {
  import opened Results
  import Worksheet

  type UserId = string

  /** The JSON values a credential field can hold, as far as the core inspects them. */
  datatype Json = Num(n: int) | Str(s: string) | Other

  /** One user's credential record (a Python `dict`). */
  type Record = map<string, Json>

  /** The whole credential file: user id to record. */
  type Tokens = map<UserId, Record>

  /** What reading the tokens file can find. */
  datatype Disk =
    | Missing               // the file does not exist
    | Unreadable            // the file exists but the operating system fails to open or read it (`OSError`)
    | Undecodable           // the file is read but is not valid JSON
    | Stored(tokens: Tokens)

  /** Python truthiness of a record: an empty `dict` is falsy. */
  predicate Truthy(r: Record) {
    |r| > 0
  }

  /** `dict.get(key)`. */
  function Field(r: Record, key: string): Option<Json> {
    if key in r then Some(r[key]) else None
  }

  /** Two maps show the same record for `user`, or both have none. */
  predicate AgreeAt(a: Tokens, b: Tokens, user: UserId) {
    && (user in a <==> user in b)
    && (user in a ==> a[user] == b[user])
  }

  /** Python's `dict.update`: keys of `newer` overwrite, every other key of `base` stays. */
  function Merge(base: Record, newer: Record): (m: Record)
    ensures m.Keys == base.Keys + newer.Keys
    ensures forall k :: k in newer ==> m[k] == newer[k]
    ensures forall k :: k in base && k !in newer ==> m[k] == base[k]
  {
    base + newer
  }

  /** Iterating over the keys or items of a dict visits each key once; the order is a parameter. */
  predicate Enumerates(order: seq<UserId>, tokens: Tokens) {
    && Worksheet.Distinct(order)
    && tokens.Keys == set u | u in order
  }

  /** Every user the iteration visits is a key of the dict. */
  lemma EnumeratedKeys(order: seq<UserId>, tokens: Tokens)
    requires Enumerates(order, tokens)
    ensures forall j :: 0 <= j < |order| ==> order[j] in tokens
  {
    forall j | 0 <= j < |order|
      ensures order[j] in tokens
    {
      assert order[j] in set u | u in order;
    }
  }

  /** Iterating the items of a dict visits as many users as it has keys. */
  lemma {:induction false} EnumerationSize(order: seq<UserId>, tokens: Tokens)
    requires Enumerates(order, tokens)
    ensures |order| == |tokens|
  {
    DistinctCount(order);
    assert |tokens| == |tokens.Keys|;
  }

  lemma {:induction false} DistinctCount(order: seq<UserId>)
    requires Worksheet.Distinct(order)
    ensures |set u | u in order| == |order|
  {
    if |order| > 0 {
      var rest := order[1..];
      assert Worksheet.Distinct(rest) by {
        forall i, j | 0 <= i < j < |rest|
          ensures rest[i] != rest[j]
        {
          assert rest[i] == order[i + 1] && rest[j] == order[j + 1];
        }
      }
      DistinctCount(rest);
      assert (set u | u in order) == (set u | u in rest) + {order[0]};
      assert order[0] !in (set u | u in rest) by {
        forall i | 0 <= i < |rest|
          ensures rest[i] != order[0]
        {
          assert rest[i] == order[i + 1];
        }
      }
    }
  }
}
