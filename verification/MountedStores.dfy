/** The stores mounted at the bottom of the stack. */
module MountedStores {
  import opened Basics
  import opened ByteOrder
  import opened Listing
  import opened MergeSpec
  import opened Iterators

  /** A store at the bottom of the stack, read and written as a plain ordered map. */
  class MountedStore {
    var data: Contents

    constructor (data: Contents)
      ensures this.data == data
    {
      this.data := data;
    }

    method Get(key: Bytes) returns (value: Option<Bytes>)
      ensures value == Lookup(data, key)
    {
      value := Lookup(data, key);
    }

    method Set(key: Bytes, value: Bytes)
      modifies this
      ensures data == old(data)[key := value]
    {
      data := data[key := value];
    }

    method Delete(key: Bytes)
      modifies this
      ensures data == old(data) - {key}
    {
      data := data - {key};
    }

    method Iterator(start: Bytes, end: Option<Bytes>, ascending: bool) returns (it: DbIterator)
      ensures fresh(it)
      ensures Ordered(it.items, ascending)
      ensures it.items == Listed(Window(data, start, end), ascending)
    {
      hide Before, Binds, Bindings, Listed, Ordered, Reverse;
      var sorted := SortByKey(map k | k in data && InDomain(k, start, end) :: data[k]);
      ReverseListed(sorted, Window(data, start, end));
      ListedOrdered(Window(data, start, end), ascending);
      it := new DbIterator(if ascending then sorted else Reverse(sorted));
    }
  }
}
