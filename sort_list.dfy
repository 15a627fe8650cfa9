/** src/utils/sortList.ts: sorting table rows in place by one field, either
    numerically or as text under the Finnish collation. A row is any `T`;
    the field the caller names is read through `key`. */
module SortList {

  import opened Wrappers
  import opened ArraySort

  /** The comparator of `sortNumeric` on two numeric field values (a
      JavaScript number other than NaN): -1, 0 or 1, with the signs swapped
      for any direction other than "ascending". */
  function NumericCompare(first: real, second: real, direction: string): (c: int)
    ensures c == 0 <==> first == second
    ensures direction == "ascending" ==> (c < 0 <==> first < second)
    ensures direction != "ascending" ==> (c < 0 <==> first > second)
    ensures -1 <= c <= 1
  {
    if first < second then (if direction == "ascending" then -1 else 1)
    else if first > second then (if direction == "ascending" then 1 else -1)
    else 0
  }

  /** Swapping the operands negates the comparison. */
  lemma NumericCompareAntisymmetric(first: real, second: real, direction: string)
    ensures NumericCompare(first, second, direction) == -NumericCompare(second, first, direction)
  {
  }

  /** The order `items.sort` follows in `sortNumeric`: `a` may stay before
      `b` when the comparator does not return a positive number. */
  function NumericOrder<T>(key: T -> real, direction: string): (T, T) -> bool {
    (a: T, b: T) => NumericCompare(key(a), key(b), direction) <= 0
  }

  lemma NumericOrderIsTotalPreorder<T(!new)>(key: T -> real, direction: string)
    ensures TotalPreorder(NumericOrder(key, direction))
  {
  }

  /** `sortNumeric(items, key, direction)`: sorts the caller's array in place
      and returns that same array. The keys end up non-decreasing for
      "ascending" and non-increasing for every other direction, and no row
      is added or dropped. */
  method SortNumeric<T(!new)>(items: array<T>, key: T -> real, direction: string) returns (r: array<T>)
    modifies items
    ensures r == items
    ensures direction == "ascending" ==>
      forall i, j :: 0 <= i < j < items.Length ==> key(items[i]) <= key(items[j])
    ensures direction != "ascending" ==>
      forall i, j :: 0 <= i < j < items.Length ==> key(items[i]) >= key(items[j])
    ensures multiset(items[..]) == multiset(old(items[..]))
  {
    NumericOrderIsTotalPreorder(key, direction);
    SortInPlace(items, NumericOrder(key, direction));
    assert SortedBy(items[..], NumericOrder(key, direction));
    forall i, j | 0 <= i < j < items.Length
      ensures NumericCompare(key(items[i]), key(items[j]), direction) <= 0
    {
      assert items[..][i] == items[i] && items[..][j] == items[j];
    }
    r := items;
  }

  /** `str.split(' ').join('')`: the text with every space removed. */
  function RemoveSpaces(s: string): (r: string)
    ensures ' ' !in r
    ensures |r| <= |s|
    ensures forall c :: c != ' ' ==> multiset(r)[c] == multiset(s)[c]
    ensures ' ' !in s ==> r == s
  {
    if s == [] then []
    else (assert s == [s[0]] + s[1..];
          if s[0] == ' ' then RemoveSpaces(s[1..]) else [s[0]] + RemoveSpaces(s[1..]))
  }

  /** The text `sortAlphanumeric` compares for one row: a missing or null
      field counts as the empty string, and spaces are removed. */
  function AlphanumericKey(raw: Nullable<string>): (k: string)
    ensures raw.IsNullish() ==> k == ""
    ensures raw.Present? ==> k == RemoveSpaces(raw.value)
  {
    RemoveSpaces(raw.Or(""))
  }

  /** The order `items.sort` follows in `sortAlphanumeric`. `collates(x, y)`
      stands for `x.localeCompare(y, 'fi', { numeric: true }) <= 0`; any
      direction other than "ascending" swaps the operands. */
  function AlphanumericOrder<T>(key: T -> Nullable<string>, direction: string,
                                collates: (string, string) -> bool): (T, T) -> bool
  {
    (a: T, b: T) =>
      if direction == "ascending" then collates(AlphanumericKey(key(a)), AlphanumericKey(key(b)))
      else collates(AlphanumericKey(key(b)), AlphanumericKey(key(a)))
  }

  lemma AlphanumericOrderIsTotalPreorder<T(!new)>(key: T -> Nullable<string>, direction: string,
                                                  collates: (string, string) -> bool)
    requires TotalPreorder(collates)
    ensures TotalPreorder(AlphanumericOrder(key, direction, collates))
  {
    var le := AlphanumericOrder(key, direction, collates);
    forall x, y, z | le(x, y) && le(y, z)
      ensures le(x, z)
    {
      var kx, ky, kz := AlphanumericKey(key(x)), AlphanumericKey(key(y)), AlphanumericKey(key(z));
      if direction == "ascending" {
        assert collates(kx, ky) && collates(ky, kz);
      } else {
        assert collates(kz, ky) && collates(ky, kx);
      }
    }
    forall x, y
      ensures le(x, y) || le(y, x)
    {
      var kx, ky := AlphanumericKey(key(x)), AlphanumericKey(key(y));
      assert collates(kx, ky) || collates(ky, kx);
    }
  }

  /** `sortAlphanumeric(items, key, direction)`: sorts the caller's array in
      place by the collation of the space-free field texts (reversed for any
      direction other than "ascending") and returns that same array; no row
      is added or dropped. */
  method SortAlphanumeric<T(!new)>(items: array<T>, key: T -> Nullable<string>, direction: string,
                                   collates: (string, string) -> bool) returns (r: array<T>)
    requires TotalPreorder(collates)
    modifies items
    ensures r == items
    ensures direction == "ascending" ==>
      forall i, j :: 0 <= i < j < items.Length ==>
        collates(AlphanumericKey(key(items[i])), AlphanumericKey(key(items[j])))
    ensures direction != "ascending" ==>
      forall i, j :: 0 <= i < j < items.Length ==>
        collates(AlphanumericKey(key(items[j])), AlphanumericKey(key(items[i])))
    ensures multiset(items[..]) == multiset(old(items[..]))
  {
    var le := AlphanumericOrder(key, direction, collates);
    AlphanumericOrderIsTotalPreorder(key, direction, collates);
    SortInPlace(items, le);
    forall i, j | 0 <= i < j < items.Length
      ensures le(items[i], items[j])
    {
      assert items[..][i] == items[i] && items[..][j] == items[j];
    }
    r := items;
  }
}
