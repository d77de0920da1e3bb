/** Vocabulary shared by every part of the vault model: optional values and
    results, account addresses and networks, order-preserving filtering and
    decimal digit strings. */
module Base {

  /** `undefined` / a value, as the TypeScript code uses `T | undefined`. */
  datatype Option<+T> = None | Some(value: T) {
    function GetOr(default: T): T {
      match this
      case Some(v) => v
      case None => default
    }
  }

  /** A returned value or a thrown error. */
  datatype Result<+T, +E> = Ok(value: T) | Err(error: E)

  /** An account address. The model only compares addresses for equality,
      which is what `AccountAddress.equals` does on the underlying bytes. */
  datatype Address = Address(bytes: seq<bv8>)

  datatype Network = Mainnet | Testnet | Devnet | Local | Custom

  /** The `type` field of a transaction response; only `user_transaction`
      matters to the model. */
  datatype TxnKind = UserTxn | OtherTxn

  /** One write-set change of a committed transaction: a resource write
      with the resource's type, or any other kind of change. */
  datatype Change = WriteResource(address: string, dataType: string) | OtherChange

  /** What `fetchTransaction` answers for a ledger version. `sender` is the
      text of a user transaction's sender as the ledger spells it. */
  datatype TxnResponse = TxnResponse(kind: TxnKind, version: nat, sender: string, changes: seq<Change>)

  /** The ledger answers a version with the transaction at that version. */
  ghost predicate ByVersion(fetch: nat -> TxnResponse) {
    forall v :: fetch(v).version == v
  }

  /** The first user transaction among `responses` at `version`: the
      `find` both multisig hooks use to pair an indexer row with its
      transaction. */
  function FindUserTxn(responses: seq<TxnResponse>, version: nat): (r: Option<TxnResponse>)
    ensures r.None? <==> forall x :: x in responses ==> !(x.kind == UserTxn && x.version == version)
    ensures r.Some? ==> r.value in responses && r.value.kind == UserTxn && r.value.version == version
  {
    if |responses| == 0 then None
    else if responses[0].kind == UserTxn && responses[0].version == version then Some(responses[0])
    else FindUserTxn(responses[1..], version)
  }

  /** When the ledger answers by version, the pairing finds the response
      for the row's own version exactly when that one is a user transaction. */
  lemma FindUserTxnByVersion(responses: seq<TxnResponse>, fetch: nat -> TxnResponse, version: nat)
    requires ByVersion(fetch)
    requires forall x :: x in responses ==> x == fetch(x.version)
    requires fetch(version) in responses
    ensures FindUserTxn(responses, version) == if fetch(version).kind == UserTxn then Some(fetch(version)) else None
  {
  }

  /** `LONG_FRAMEWORK_ADDRESS`: the framework account 0x1 in its long form. */
  const LongFrameworkAddress := "0x0000000000000000000000000000000000000000000000000000000000000001"

  /** The fully qualified name of a `multisig_account` event. */
  function MultisigEvent(name: string): string {
    LongFrameworkAddress + "::multisig_account::" + name
  }

  /** Distinct event names give distinct event types. */
  lemma MultisigEventInjective()
    ensures forall a, b :: MultisigEvent(a) == MultisigEvent(b) ==> a == b
  {
    var prefix := LongFrameworkAddress + "::multisig_account::";
    forall a, b | MultisigEvent(a) == MultisigEvent(b)
      ensures a == b
    {
      assert MultisigEvent(a)[|prefix|..] == a;
      assert MultisigEvent(b)[|prefix|..] == b;
    }
  }

  /** Address helpers of the SDK that the model does not look inside:
      `isAddress`, `AccountAddress.from`, `toString`, `truncateAddress` and
      the app's `normalizeAddress`. */
  datatype AddressLib = AddressLib(
    isAddress: string -> bool,
    from: string -> Address,
    show: Address -> string,
    truncate: string -> string,
    normalize: string -> string)

  // ---------------------------------------------------------------------
  // Sequences
  // ---------------------------------------------------------------------

  /** `Array.prototype.filter`: keeps, in order, the elements satisfying `p`. */
  function Filter<T(==,!new)>(s: seq<T>, p: T -> bool): (r: seq<T>)
    ensures |r| <= |s|
    ensures forall x :: x in r <==> x in s && p(x)
    ensures forall x :: multiset(r)[x] == if p(x) then multiset(s)[x] else 0
  {
    if |s| == 0 then []
    else
      assert s == [s[0]] + s[1..];
      if p(s[0]) then [s[0]] + Filter(s[1..], p) else Filter(s[1..], p)
  }

  /** Filtering a concatenation filters each part: the kept elements stay in
      their original relative order. */
  lemma {:induction false} FilterAppend<T(!new)>(a: seq<T>, b: seq<T>, p: T -> bool)
    ensures Filter(a + b, p) == Filter(a, p) + Filter(b, p)
  {
    if |a| == 0 {
      assert a + b == b;
    } else {
      assert (a + b)[1..] == a[1..] + b;
      FilterAppend(a[1..], b, p);
    }
  }

  /** Filters with the same predicate, however written, agree. */
  lemma {:induction false} FilterSamePredicate<T(!new)>(s: seq<T>, p: T -> bool, q: T -> bool)
    requires forall x :: p(x) == q(x)
    ensures Filter(s, p) == Filter(s, q)
  {
    if |s| > 0 {
      FilterSamePredicate(s[1..], p, q);
    }
  }

  /** A filter that rejects nothing returns its input. */
  lemma {:induction false} FilterAll<T(!new)>(s: seq<T>, p: T -> bool)
    requires forall x :: x in s ==> p(x)
    ensures Filter(s, p) == s
  {
    if |s| > 0 {
      assert forall x :: x in s[1..] ==> x in s;
      FilterAll(s[1..], p);
      assert s == [s[0]] + s[1..];
    }
  }

  /** No two elements of `s` share a key. */
  ghost predicate DistinctBy<T, K>(s: seq<T>, key: T -> K) {
    forall i, j :: 0 <= i < j < |s| ==> key(s[i]) != key(s[j])
  }

  /** Filtering never introduces a repeated key. */
  lemma {:induction false} FilterKeepsDistinct<T(!new), K>(s: seq<T>, p: T -> bool, key: T -> K)
    requires DistinctBy(s, key)
    ensures DistinctBy(Filter(s, p), key)
  {
    if |s| > 0 {
      FilterKeepsDistinct(s[1..], p, key);
      var rest := Filter(s[1..], p);
      if p(s[0]) {
        var r := [s[0]] + rest;
        forall i, j | 0 <= i < j < |r|
          ensures key(r[i]) != key(r[j])
        {
          if i == 0 {
            assert r[j] in s[1..];
            var k :| 0 <= k < |s[1..]| && s[1..][k] == r[j];
            assert s[k + 1] == r[j];
          } else {
            assert r[i] == rest[i - 1] && r[j] == rest[j - 1];
          }
        }
      }
    }
  }

  /** The elements of `s` picked out by `mask`, in order. */
  function Select<T>(s: seq<T>, mask: seq<bool>): seq<T>
    requires |mask| == |s|
  {
    if |s| == 0 then []
    else if mask[0] then [s[0]] + Select(s[1..], mask[1..])
    else Select(s[1..], mask[1..])
  }

  /** `r` is obtained from `s` by deleting elements, keeping the order. */
  ghost predicate IsSubsequence<T>(r: seq<T>, s: seq<T>) {
    exists mask: seq<bool> {:trigger Select(s, mask)} :: |mask| == |s| && Select(s, mask) == r
  }

  /** The result of a filter is an order-preserving subsequence of its input. */
  lemma FilterIsSubsequence<T(!new)>(s: seq<T>, p: T -> bool)
    ensures IsSubsequence(Filter(s, p), s)
  {
    var mask := seq(|s|, i requires 0 <= i < |s| => p(s[i]));
    FilterSelect(s, p, mask);
  }

  lemma {:induction false} FilterSelect<T(!new)>(s: seq<T>, p: T -> bool, mask: seq<bool>)
    requires |mask| == |s|
    requires forall i :: 0 <= i < |s| ==> mask[i] == p(s[i])
    ensures Select(s, mask) == Filter(s, p)
  {
    if |s| > 0 {
      FilterSelect(s[1..], p, mask[1..]);
    }
  }

  /** `Array.prototype.map`. */
  function MapSeq<T, U>(s: seq<T>, f: T -> U): (r: seq<U>)
    ensures |r| == |s|
    ensures forall i :: 0 <= i < |s| ==> r[i] == f(s[i])
  {
    seq(|s|, i requires 0 <= i < |s| => f(s[i]))
  }

  /** The elements in the opposite order. */
  function Reverse<T>(s: seq<T>): (r: seq<T>)
    ensures |r| == |s|
    ensures forall i :: 0 <= i < |s| ==> r[i] == s[|s| - 1 - i]
  {
    seq(|s|, i requires 0 <= i < |s| => s[|s| - 1 - i])
  }

  /** Selecting and then mapping is mapping and then selecting: a property
      of a filter-map carries over to the mapped components. */
  lemma {:induction false} SelectMap<T, U>(s: seq<T>, mask: seq<bool>, f: T -> U)
    requires |mask| == |s|
    ensures MapSeq(Select(s, mask), f) == Select(MapSeq(s, f), mask)
  {
    if |s| > 0 {
      SelectMap(s[1..], mask[1..], f);
      assert MapSeq(s, f)[1..] == MapSeq(s[1..], f);
    }
  }

  /** `String.prototype.endsWith`. */
  predicate EndsWith(s: string, suffix: string) {
    |suffix| <= |s| && s[|s| - |suffix|..] == suffix
  }

  // ---------------------------------------------------------------------
  // Decimal digit strings
  // ---------------------------------------------------------------------

  /** `\d` of a JavaScript regular expression: an ASCII digit. */
  predicate IsDigit(c: char) {
    '0' <= c <= '9'
  }

  predicate IsDigits(s: string) {
    forall i :: 0 <= i < |s| ==> IsDigit(s[i])
  }

  /** The value of a string of decimal digits, as `Number` reads it. */
  function DecimalValue(s: string): nat
    requires IsDigits(s)
  {
    if |s| == 0 then 0
    else DecimalValue(s[..|s| - 1]) * 10 + (s[|s| - 1] as int - '0' as int)
  }

  function Pow10(n: nat): (r: nat)
    ensures r >= 1
  {
    if n == 0 then 1 else 10 * Pow10(n - 1)
  }

  /** A string of `n` digits denotes a number below 10^n. */
  lemma {:induction false} DecimalValueBound(s: string)
    requires IsDigits(s)
    ensures DecimalValue(s) < Pow10(|s|)
  {
    if |s| > 0 {
      DecimalValueBound(s[..|s| - 1]);
    }
  }

  /** The shortest decimal rendering of `n`, as `Number.prototype.toString`. */
  function NatToString(n: nat): (r: string)
    ensures |r| >= 1 && IsDigits(r)
  {
    var last := [('0' as int + n % 10) as char];
    if n < 10 then last else NatToString(n / 10) + last
  }

  /** Reading back a rendered number gives the number. */
  lemma {:induction false} DecimalRoundTrip(n: nat)
    ensures DecimalValue(NatToString(n)) == n
  {
    var s := NatToString(n);
    if n >= 10 {
      DecimalRoundTrip(n / 10);
      assert s[..|s| - 1] == NatToString(n / 10);
    }
  }

  /** The option values `Array.from({ length: n }, (_, i) => (i + 1).toString())`. */
  function NumberOptions(n: nat): (r: seq<string>)
    ensures |r| == n
    ensures forall i :: 0 <= i < n ==> r[i] == NatToString(i + 1)
  {
    seq(n, i requires 0 <= i < n => NatToString(i + 1))
  }

  /** Each option reads back as its position plus one. */
  lemma NumberOptionsValues(n: nat)
    ensures forall i :: 0 <= i < n ==> IsDigits(NumberOptions(n)[i]) && DecimalValue(NumberOptions(n)[i]) == i + 1
  {
    forall i | 0 <= i < n
      ensures DecimalValue(NumberOptions(n)[i]) == i + 1
    {
      DecimalRoundTrip(i + 1);
    }
  }
}
