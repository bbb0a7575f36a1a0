/** The configuration as the parser's actions build it: a list of entries, and a stack that each list
    definition fills and empties. */
module SysConf {
  import opened Sequences
  import opened Options
  import opened ConfigModel

  class SysconfEntry {
    const key: string
    var entryType: EntryType
    var ivalue: int
    const value: Option<string>
    const list: Option<seq<int>>
    const slist: Option<seq<string>>
    const next: SysconfEntry?

    ghost function AsEntry(): Entry
      reads `entryType, `ivalue
    {
      Entry(key, entryType, ivalue, value, list, slist)
    }

    constructor (e: Entry, next: SysconfEntry?)
      ensures AsEntry() == e && this.next == next
    {
      key, entryType, ivalue, value, list, slist := e.key, e.entryType, e.ivalue, e.value, e.list, e.slist;
      this.next := next;
    }
  }

  datatype StackType = IntegerStack | StringStack | UninitializedStack

  ghost function Node(w: seq<SysconfEntry>, k: int): SysconfEntry? {
    if 0 <= k < |w| then w[k] else null
  }

  ghost predicate Chain(head: SysconfEntry?, w: seq<SysconfEntry>) {
    head == Node(w, 0) && (forall k | 0 <= k < |w| :: w[k].next == Node(w, k + 1)) && Distinct(w)
  }

  ghost function AsEntries(w: seq<SysconfEntry>): (entries: seq<Entry>)
    reads w
    ensures |entries| == |w| && forall k | 0 <= k < |w| :: entries[k] == w[k].AsEntry()
  {
    seq(|w|, k requires 0 <= k < |w| reads w => w[k].AsEntry())
  }

  lemma ChainPush(q: SysconfEntry, w: seq<SysconfEntry>)
    requires Chain(q.next, w) && q !in w
    ensures Chain(q, [q] + w)
  {
    var all := [q] + w;
    forall k | 0 <= k < |all| ensures all[k].next == Node(all, k + 1) {
      if k > 0 { assert w[k - 1].next == Node(w, k); }
    }
  }

  class SystemConfig {
    var root: SysconfEntry?
    const stk: array<Item>
    var sp: nat
    var stackType: StackType
    ghost var entries: seq<SysconfEntry>   // newest first

    ghost predicate Valid()
      reads `root, `sp, `entries
    {
      stk.Length == MAX_INT_STK_LEN && sp <= stk.Length && Chain(root, entries)
    }

    /** No list is under way. */
    ghost predicate Settled()
      reads `sp, `stackType
    {
      sp == 0 && stackType == UninitializedStack
    }

    ghost function Stack(): (stack: seq<Item>)
      requires sp <= stk.Length == MAX_INT_STK_LEN
      reads `sp, stk
      ensures |stack| <= MAX_INT_STK_LEN
    {
      stk[..sp]
    }

    constructor ()
      ensures Valid() && Settled() && AsEntries(entries) == [] && fresh(stk)
    {
      root, sp, stackType, entries := null, 0, UninitializedStack, [];
      stk := new Item[MAX_INT_STK_LEN](_ => IntItem(0));
    }

    method PushEntry(e: Entry) returns (ptr: SysconfEntry)
      requires Valid()
      modifies `root, `entries
      ensures Valid() && fresh(ptr) && entries == [ptr] + old(entries) && ptr.AsEntry() == e
    {
      ptr := new SysconfEntry(e, root);
      ChainPush(ptr, entries);
      root := ptr;
      entries := [ptr] + entries;
    }

    method AddentryString(key: string, value: string) returns (ptr: SysconfEntry)
      requires Valid() && value != "\""
      modifies `root, `entries
      ensures Valid() && fresh(ptr) && entries == [ptr] + old(entries)
      ensures ptr.AsEntry() == Entry(key, StringValue, -1, Some(Unquoted(value)), None, None)
    {
      var text := if value != "" && value[0] == '"' then DupQuotedString(value) else value;
      ptr := PushEntry(Entry(key, StringValue, -1, Some(text), None, None));
    }

    function DupQuotedString(qst: string): (text: string)
      requires qst != "" && qst != "\""
      ensures text == Unquoted(qst)
    {
      if qst[0] == '"' && qst[|qst| - 1] == '"' then qst[1..|qst| - 1] else qst
    }

    method AddentryInteger(key: string, value: string)
      requires Valid() && value != "\""
      modifies `root, `entries
      ensures Valid()
      ensures AsEntries(entries) == [Entry(key, IntegerValue, Atoi(value), Some(Unquoted(value)), None, None)] + old(AsEntries(entries))
    {
      var data := Atoi(value);
      var ptr := AddentryString(key, value);
      ptr.ivalue := data;
      ptr.entryType := IntegerValue;
    }

    method AddentryFlag(key: string, on: bool)
      requires Valid()
      modifies `root, `entries
      ensures Valid()
      ensures AsEntries(entries) == [Entry(key, BooleanValue, if on then 1 else 0, Some(if on then "on" else "off"), None, None)] + old(AsEntries(entries))
    {
      var ptr := AddentryString(key, if on then "on" else "off");
      ptr.ivalue := if on then 1 else 0;
      ptr.entryType := BooleanValue;
    }

    /** Drops what does not fit. */
    method ListAppendInt(entry: string)
      requires Valid()
      modifies `sp, stk
      ensures Valid() && Stack() == Pushed(old(Stack()), IntItem(Atoi(entry)))
    {
      if sp < MAX_INT_STK_LEN {
        stk[sp] := IntItem(Atoi(entry));
        sp := sp + 1;
      }
    }

    method ListAppendStr(entry: string)
      requires Valid() && entry != "" && entry != "\""
      modifies `sp, stk
      ensures Valid() && Stack() == Pushed(old(Stack()), StrItem(Unquoted(entry)))
    {
      if sp < MAX_INT_STK_LEN {
        stk[sp] := StrItem(DupQuotedString(entry));
        sp := sp + 1;
      }
    }

    /** The right-recursive rule: the rest of the list is reduced, then its first element is appended. */
    method CommaListNumber(items: seq<string>)
      requires Valid() && items != []
      modifies `sp, stk
      ensures Valid() && Stack() == PushedRight(old(Stack()), IntItems(items))
      decreases items
    {
      assert IntItems(items)[1..] == IntItems(items[1..]);
      if |items| > 1 {
        CommaListNumber(items[1..]);
      }
      ListAppendInt(items[0]);
    }

    method CommaListString(quotes: seq<string>)
      requires Valid() && quotes != [] && forall k | 0 <= k < |quotes| :: Quoted(quotes[k])
      modifies `sp, stk
      ensures Valid() && Stack() == PushedRight(old(Stack()), StrItems(quotes))
      decreases quotes
    {
      assert StrItems(quotes)[1..] == StrItems(quotes[1..]);
      if |quotes| > 1 {
        CommaListString(quotes[1..]);
      }
      ListAppendStr(quotes[0]);
    }

    /** The stack from the top down. */
    method PopInts() returns (list: seq<int>)
      requires Valid() && forall k | 0 <= k < sp :: Stack()[k].IntItem?
      ensures list == Ints(Reversed(Stack()))
    {
      var copy := new int[sp];
      for i := 0 to sp
        invariant forall k | 0 <= k < i :: copy[k] == Reversed(Stack())[k].intval
      {
        assert stk[sp - i - 1] == Stack()[sp - i - 1];
        copy[i] := stk[sp - i - 1].intval;
      }
      return copy[..];
    }

    method PopStrs() returns (list: seq<string>)
      requires Valid() && forall k | 0 <= k < sp :: Stack()[k].StrItem?
      ensures list == Strs(Reversed(Stack()))
    {
      var copy := new string[sp](_ => "");
      for i := 0 to sp
        invariant forall k | 0 <= k < i :: copy[k] == Reversed(Stack())[k].str
      {
        assert stk[sp - i - 1] == Stack()[sp - i - 1];
        copy[i] := stk[sp - i - 1].str;
      }
      return copy[..];
    }

    /** Pops the stack into a new list entry and leaves the stack empty. */
    method AddPreparedList(key: string)
      requires Valid()
      requires stackType == IntegerStack ==> forall k | 0 <= k < sp :: Stack()[k].IntItem?
      requires stackType == StringStack ==> forall k | 0 <= k < sp :: Stack()[k].StrItem?
      modifies this
      ensures Valid() && Settled()
      ensures AsEntries(entries) == match old(stackType)
                                    case IntegerStack => [Entry(key, IntegerList, old(sp), None, Some(Ints(Reversed(old(Stack())))), None)] + old(AsEntries(entries))
                                    case StringStack => [Entry(key, StringList, old(sp), None, None, Some(Strs(Reversed(old(Stack())))))] + old(AsEntries(entries))
                                    case UninitializedStack => old(AsEntries(entries))
    {
      match stackType
      case IntegerStack =>
        var list := PopInts();
        var _ := PushEntry(Entry(key, IntegerList, sp, None, Some(list), None));
        sp := 0;
        stackType := UninitializedStack;
      case StringStack =>
        var list := PopStrs();
        var _ := PushEntry(Entry(key, StringList, sp, None, None, Some(list)));
        sp := 0;
        stackType := UninitializedStack;
      case UninitializedStack =>
        sp := 0;
    }

    /** One definition with its action; nothing of an earlier list plays a part. */
    method VariableDefinition(d: Definition)
      requires Valid() && Settled() && Accepted(d)
      modifies this, stk
      ensures Valid() && Settled() && AsEntries(entries) == [Meaning(d)] + old(AsEntries(entries))
    {
      hide Chain, AsEntries, Final, PushedRight, Reversed, Numerals, Strings;
      match d.data
      case Number(digits) => DigitsArePlain(digits); AddentryInteger(d.key, digits);
      case Quotation(q) => var _ := AddentryString(d.key, q);
      case On => AddentryFlag(d.key, true);
      case Off => AddentryFlag(d.key, false);
      case Numbers(items) =>
        NumbersMeaning(items);
        CommaListNumber(items);
        stackType := IntegerStack;
        AddPreparedList(d.key);
      case Quotations(quotes) =>
        QuotationsMeaning(quotes);
        CommaListString(quotes);
        stackType := StringStack;
        AddPreparedList(d.key);
    }

    /** The whole file: definitions in order, each acted on before the next is read. */
    method SystemDefinitions(defs: seq<Definition>)
      requires Valid() && Settled() && forall k | 0 <= k < |defs| :: Accepted(defs[k])
      modifies this, stk
      ensures Valid() && Settled() && AsEntries(entries) == Entries(defs) + old(AsEntries(entries))
      decreases defs
    {
      hide Chain, Meaning, Accepted;
      if defs != [] {
        VariableDefinition(defs[0]);
        SystemDefinitions(defs[1..]);
        EntriesFirst(defs);
      }
    }

    /** The entry of that key that was defined last. */
    method SysconfPtr(key: string) returns (ptr: SysconfEntry?)
      requires Valid()
      ensures ptr != null ==> ptr in entries && Lookup(AsEntries(entries), key) == Some(ptr.AsEntry())
      ensures ptr == null ==> Lookup(AsEntries(entries), key) == None
    {
      ghost var all, k := AsEntries(entries), 0;
      ptr := root;
      while ptr != null
        invariant 0 <= k <= |entries| && ptr == Node(entries, k)
        invariant Lookup(all, key) == Lookup(all[k..], key)
        decreases |entries| - k
      {
        assert all[k..][0] == ptr.AsEntry() && all[k..][1..] == all[k + 1..];
        if SameKey(key, ptr.key) {
          return ptr;
        }
        ptr := ptr.next;
        k := k + 1;
      }
    }

    method SysconfStrOrDefault(key: string, defaultValue: Option<string>) returns (text: Option<string>)
      requires Valid()
      ensures text == match Lookup(AsEntries(entries), key) case Some(e) => e.value case None => defaultValue
    {
      var ptr := SysconfPtr(key);
      if ptr != null {
        return ptr.value;
      }
      return defaultValue;
    }

    method SysconfIntOrDefault(key: string, defaultValue: int) returns (number: int)
      requires Valid()
      ensures number == match Lookup(AsEntries(entries), key) case Some(e) => e.ivalue case None => defaultValue
    {
      var ptr := SysconfPtr(key);
      if ptr != null {
        return ptr.ivalue;
      }
      return defaultValue;
    }

    method DataType(key: string) returns (entryType: EntryType)
      requires Valid()
      ensures entryType == match Lookup(AsEntries(entries), key) case Some(e) => e.entryType case None => IntegerValue
    {
      var ptr := SysconfPtr(key);
      if ptr != null {
        return ptr.entryType;
      }
      return IntegerValue;
    }

    method ReadIntegerList(key: string) returns (list: Option<seq<int>>, sz: Option<int>)
      requires Valid()
      ensures list == ListOf(AsEntries(entries), key)
      ensures sz.Some? <==> Lookup(AsEntries(entries), key).Some? && Lookup(AsEntries(entries), key).value.entryType == IntegerList
      ensures sz.Some? ==> sz.value == Lookup(AsEntries(entries), key).value.ivalue
    {
      var ptr := SysconfPtr(key);
      if ptr != null {
        if ptr.entryType == IntegerList {
          return ptr.list, Some(ptr.ivalue);
        }
      }
      return None, None;
    }

    method ReadStringList(key: string) returns (list: Option<seq<string>>, sz: Option<int>)
      requires Valid()
      ensures list == StringsOf(AsEntries(entries), key)
      ensures sz.Some? <==> Lookup(AsEntries(entries), key).Some? && Lookup(AsEntries(entries), key).value.entryType == StringList
      ensures sz.Some? ==> sz.value == Lookup(AsEntries(entries), key).value.ivalue
    {
      var ptr := SysconfPtr(key);
      if ptr != null {
        if ptr.entryType == StringList {
          return ptr.slist, Some(ptr.ivalue);
        }
      }
      return None, None;
    }
  }

  /** Reads a file and asks for a value: what the last definition of the key says, in the terms of the file. */
  method ValueFromFile(defs: seq<Definition>, key: string, ghost last: int) returns (text: Option<string>, number: int, entryType: EntryType)
    requires LastOf(defs, key, last) && forall k | 0 <= k < |defs| :: Accepted(defs[k])
    ensures defs[last].data.Number? ==> entryType == IntegerValue && number == Atoi(defs[last].data.digits) && text == Some(defs[last].data.digits)
    ensures defs[last].data.Quotation? ==>
              entryType == StringValue && number == -1 && text.Some? && defs[last].data.quoted == ['"'] + text.value + ['"']
    ensures defs[last].data == On ==> entryType == BooleanValue && number == 1 && text == Some("on")
    ensures defs[last].data == Off ==> entryType == BooleanValue && number == 0 && text == Some("off")
  {
    hide Lookup, Entries, SameKey, Unquoted, Atoi, AsEntries;
    var config := new SystemConfig();
    config.SystemDefinitions(defs);
    ValuesOfAFile(defs, key, last);
    if defs[last].data.Quotation? {
      QuotationMarks(defs[last].data.quoted);
    }
    assert Accepted(defs[last]) && AsEntries(config.entries) == Entries(defs);
    text := config.SysconfStrOrDefault(key, None);
    number := config.SysconfIntOrDefault(key, -1);
    entryType := config.DataType(key);
  }

  /** A key that no definition has gives the caller's defaults. */
  method DefaultsFromFile(defs: seq<Definition>, key: string, defaultText: Option<string>, defaultNumber: int)
    returns (text: Option<string>, number: int, entryType: EntryType)
    requires (forall k | 0 <= k < |defs| :: Accepted(defs[k])) && forall k | 0 <= k < |defs| :: !SameKey(key, defs[k].key)
    ensures text == defaultText && number == defaultNumber && entryType == IntegerValue
  {
    hide Lookup, Entries, SameKey, AsEntries;
    var config := new SystemConfig();
    config.SystemDefinitions(defs);
    LookupSeesTheLast(defs, key);
    assert AsEntries(config.entries) == Entries(defs);
    text := config.SysconfStrOrDefault(key, defaultText);
    number := config.SysconfIntOrDefault(key, defaultNumber);
    entryType := config.DataType(key);
  }

  /** Reads a file into an empty configuration and asks for an integer list: the answer is the final
      elements of the last definition of the key, whose number comes with it. */
  method ListFromFile(defs: seq<Definition>, key: string, ghost last: int) returns (list: Option<seq<int>>, sz: Option<int>)
    requires LastOf(defs, key, last) && forall k | 0 <= k < |defs| :: Accepted(defs[k])
    ensures list == if defs[last].data.Numbers? then Some(Numerals(Final(defs[last].data.items))) else None
    ensures sz == if defs[last].data.Numbers? then Some(|Final(defs[last].data.items)|) else None
  {
    var config := new SystemConfig();
    config.SystemDefinitions(defs);
    ListsOfAFile(defs, key, last);
    LookupSeesTheLast(defs, key);
    assert AsEntries(config.entries) == Entries(defs);
    list, sz := config.ReadIntegerList(key);
  }
}
