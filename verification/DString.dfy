/** Split of base/dstring.h over the std::getline it loops on. */
module DStrings {
  import opened Slices

  /** The first position of the delimiter, or the length. */
  function IndexOf(s: string, d: char): (k: nat)
    ensures k <= |s| && d !in s[..k] && (k < |s| ==> s[k] == d)
  {
    if s == "" || s[0] == d then 0
    else
      var k := 1 + IndexOf(s[1..], d);
      assert s[..k] == [s[0]] + s[1..][..k - 1];
      k
  }

  /** The items of s: what stands before each delimiter, and what stands after the last one unless
      that is nothing. */
  function Items(s: string, d: char): seq<string>
    decreases |s|
  {
    if s == "" then []
    else
      var k := IndexOf(s, d);
      if k == |s| then [s] else [s[..k]] + Items(s[k + 1..], d)
  }

  function NonEmpty(items: seq<string>): seq<string> {
    if items == [] then [] else (if items[0] == "" then [] else [items[0]]) + NonEmpty(items[1..])
  }

  /** An istringstream; getline reads on from `pos` unless the end has been met. */
  class StringStream {
    const str: string
    var pos: nat
    var eof: bool

    ghost predicate Valid()
      reads this
    {
      pos <= |str| && (eof ==> pos == |str|)
    }

    /** What getline has still to deliver. */
    ghost function Rest(d: char): seq<string>
      requires Valid()
      reads this
    {
      if eof then [] else Items(str[pos..], d)
    }

    constructor (str: string)
      ensures Valid() && this.str == str && pos == 0 && !eof
    {
      this.str := str;
      pos, eof := 0, false;
    }

    /** std::getline: reads up to the delimiter, which it drops, or up to the end; it fails if it
        has met the end before or finds nothing at all. */
    method GetLine(d: char) returns (ok: bool, item: string)
      requires Valid()
      modifies this
      ensures Valid()
      ensures ok <==> old(Rest(d)) != []
      ensures ok ==> old(Rest(d)) == [item] + Rest(d)
    {
      hide Items, IndexOf;
      item := "";
      if eof {
        return false, item;
      }
      while pos < |str| && str[pos] != d
        invariant Valid() && old(pos) <= pos && !eof
        invariant item == str[old(pos)..pos] && d !in item
      {
        item := item + [str[pos]];
        pos := pos + 1;
      }
      ReadItem(str, old(pos), pos, d);
      if pos < |str| {
        pos := pos + 1;
        return true, item;
      }
      eof := true;
      return item != "", item;
    }
  }

  lemma {:induction false} FirstIs(s: string, d: char, k: nat)
    requires k <= |s| && d !in s[..k] && (k < |s| ==> s[k] == d)
    ensures IndexOf(s, d) == k
  {
    if k > 0 {
      assert s[0] == s[..k][0];
      assert s[1..][..k - 1] == s[..k][1..];
      FirstIs(s[1..], d, k - 1);
    }
  }

  /** The items of a string whose first delimiter, if any, is at k. */
  lemma ItemsFrom(s: string, d: char, k: nat)
    requires k <= |s| && d !in s[..k] && (k < |s| ==> s[k] == d)
    ensures k < |s| ==> Items(s, d) == [s[..k]] + Items(s[k + 1..], d)
    ensures k == |s| ==> Items(s, d) == (if s == "" then [] else [s])
  {
    FirstIs(s, d, k);
    hide IndexOf;
  }

  /** The same for what lies behind `start`. */
  lemma ReadItem(s: string, start: nat, pos: nat, d: char)
    requires start <= pos <= |s| && d !in s[start..pos] && (pos < |s| ==> s[pos] == d)
    ensures pos < |s| ==> Items(s[start..], d) == [s[start..pos]] + Items(s[pos + 1..], d)
    ensures pos == |s| ==> Items(s[start..], d) == (if start == pos then [] else [s[start..pos]])
  {
    hide Items, IndexOf;
    var rest, k := s[start..], pos - start;
    SliceOfSuffix(s, start, 0, k);
    assert rest[..k] == rest[0..k] == s[start..pos];
    if pos < |s| {
      SliceOfSuffix(s, start, k + 1, |rest|);
      assert rest[k + 1..] == rest[k + 1..|rest|] && s[pos + 1..] == s[pos + 1..|s|];
      assert rest[k] == s[pos];
    } else {
      assert rest == s[start..pos];
    }
    ItemsFrom(rest, d, k);
  }

  function Trimmed(items: seq<string>, trim: bool): seq<string> {
    if trim then NonEmpty(items) else items
  }

  /** One turn of the loop in Split: the first pending item joins the result, or is dropped. */
  lemma TakeFirst(ret: seq<string>, item: string, rest: seq<string>, trim: bool)
    ensures ret + Trimmed([item] + rest, trim)
         == (if trim && item == "" then ret else ret + [item]) + Trimmed(rest, trim)
  {
    assert ([item] + rest)[1..] == rest;
    if trim {
      assert NonEmpty([item] + rest) == (if item == "" then [] else [item]) + NonEmpty(rest);
    }
  }

  method Split(str: string, d: char, trim: bool) returns (ret: seq<string>)
    ensures ret == Trimmed(Items(str, d), trim)
  {
    ret := [];
    var stream := new StringStream(str);
    assert str[0..] == str;
    ghost var rest := stream.Rest(d);
    var ok, item := stream.GetLine(d);
    assert Trimmed([], trim) == [] && [] + Trimmed(rest, trim) == Trimmed(rest, trim);
    hide Items, NonEmpty, Trimmed;
    while ok
      invariant stream.Valid() && fresh(stream)
      invariant ok <==> rest != []
      invariant ok ==> rest == [item] + stream.Rest(d)
      invariant ret + Trimmed(rest, trim) == Trimmed(Items(str, d), trim)
      decreases |rest|
    {
      ghost var later := stream.Rest(d);
      TakeFirst(ret, item, later, trim);
      if !(trim && |item| == 0) {
        ret := ret + [item];
      }
      rest := later;
      ok, item := stream.GetLine(d);
    }
  }

  // ------------------------------------------------------------------ round trips

  /** The items, each followed by the delimiter. */
  function Printed(items: seq<string>, d: char): string {
    if items == [] then "" else items[0] + [d] + Printed(items[1..], d)
  }

  predicate DelimiterFree(items: seq<string>, d: char) {
    forall i :: 0 <= i < |items| ==> d !in items[i]
  }

  lemma FirstItem(item: string, d: char, rest: string)
    requires d !in item
    ensures Items(item + [d] + rest, d) == [item] + Items(rest, d)
  {
    hide Items, IndexOf;
    var s, k := item + [d] + rest, |item|;
    assert s[..k] == item && s[k] == d;
    assert s[k + 1..] == rest;
    ItemsFrom(s, d, k);
  }

  lemma Reassociate(a: string, b: string, c: string, e: string)
    ensures a + b + c + e == a + b + (c + e)
  {}

  /** Splitting what was printed gives the items back; a last item may lack its delimiter. */
  lemma {:induction false} SplitInvertsPrint(items: seq<string>, last: string, d: char)
    requires DelimiterFree(items, d) && d !in last
    ensures Items(Printed(items, d) + last, d) == if last == "" then items else items + [last]
  {
    hide Items, IndexOf;
    if items == [] {
      assert Printed(items, d) + last == last;
      assert last[..|last|] == last;
      ItemsFrom(last, d, |last|);
    } else {
      var item, rest := items[0], items[1..];
      Reassociate(item, [d], Printed(rest, d), last);
      FirstItem(item, d, Printed(rest, d) + last);
      SplitInvertsPrint(rest, last, d);
      hide Printed;
      assert items == [item] + rest;
      assert items + [last] == [item] + (rest + [last]);
    }
  }

  /** Printing what was split gives the string back, with the delimiter it may lack at the end; and
      no item contains the delimiter. */
  lemma {:induction false} PrintInvertsSplit(s: string, d: char)
    ensures DelimiterFree(Items(s, d), d)
    ensures Printed(Items(s, d), d) == if s == "" || s[|s| - 1] == d then s else s + [d]
    decreases |s|
  {
    if s != "" {
      var k := IndexOf(s, d);
      if k == |s| {
        assert s[..k] == s && s[|s| - 1] in s[..k];
        assert [s][1..] == [];
      } else {
        var rest := s[k + 1..];
        PrintInvertsSplit(rest, d);
        assert Items(s, d)[1..] == Items(rest, d);
        assert Printed(Items(s, d), d) == s[..k] + [d] + Printed(Items(rest, d), d);
        hide Items, Printed;
        Terminated(s, k, d);
      }
    }
  }

  lemma Terminated(s: string, k: nat, d: char)
    requires k < |s| && s[k] == d
    ensures var rest := s[k + 1..];
            s[..k] + [d] + (if rest == "" || rest[|rest| - 1] == d then rest else rest + [d])
            == if s[|s| - 1] == d then s else s + [d]
  {}

  /** With trim no item is empty, and nothing changes if none was. */
  lemma {:induction false} NonEmptyDropsEmpty(items: seq<string>)
    ensures "" !in NonEmpty(items)
    ensures "" !in items ==> NonEmpty(items) == items
  {
    if items != [] {
      NonEmptyDropsEmpty(items[1..]);
      assert items == [items[0]] + items[1..];
    }
  }

  /** The items that stay keep their order. */
  lemma {:induction false} NonEmptyDistributes(items: seq<string>, more: seq<string>)
    ensures NonEmpty(items + more) == NonEmpty(items) + NonEmpty(more)
  {
    if items == [] {
      assert items + more == more;
    } else {
      assert (items + more)[1..] == items[1..] + more;
      NonEmptyDistributes(items[1..], more);
    }
  }
}
