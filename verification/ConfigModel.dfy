/** Configuration files as values: what a file of definitions means, and how its lists come about. */
module ConfigModel {
  import opened Options

  const MAX_INT_STK_LEN := 64

  datatype EntryType = IntegerList | StringList | IntegerValue | StringValue | BooleanValue

  /** One definition in force; a member that its kind of entry does not set is `None`. */
  datatype Entry = Entry(key: string, entryType: EntryType, ivalue: int, value: Option<string>, list: Option<seq<int>>, slist: Option<seq<string>>)

  /** The right-hand side of a definition, tokens as the scanner passes them on. */
  datatype Data = Number(digits: string) | Quotation(quoted: string) | On | Off | Numbers(items: seq<string>) | Quotations(quotes: seq<string>)

  datatype Definition = Definition(key: string, data: Data)

  /** A quoted token with its quotation marks. */
  predicate Quoted(q: string) {
    |q| >= 2 && q[0] == '"' && q[|q| - 1] == '"'
  }

  /** A token of digits. */
  predicate Digits(token: string) {
    token != [] && forall k | 0 <= k < |token| :: '0' <= token[k] <= '9'
  }

  /** What the grammar accepts: lists are not empty, numbers are digits, strings are quoted. */
  predicate Accepted(d: Definition) {
    match d.data
    case Quotation(q) => Quoted(q)
    case Number(digits) => Digits(digits)
    case Numbers(items) => items != [] && forall k | 0 <= k < |items| :: Digits(items[k])
    case Quotations(quotes) => quotes != [] && forall k | 0 <= k < |quotes| :: Quoted(quotes[k])
    case _ => true
  }

  /** The number a digit string stands for. */
  function Atoi(digits: string): int {
    if digits == [] then 0 else Atoi(digits[..|digits| - 1]) * 10 + (digits[|digits| - 1] as int - '0' as int)
  }

  function Unquoted(q: string): string {
    if Quoted(q) then q[1..|q| - 1] else q
  }

  lemma DigitsArePlain(digits: string)
    requires Digits(digits)
    ensures digits != "\"" && Unquoted(digits) == digits
  {
    assert digits[0] != '"';
  }

  function Lower(c: char): char {
    if 'A' <= c <= 'Z' then c - 'A' + 'a' else c
  }

  /** Equal up to case. */
  predicate SameKey(a: string, b: string) {
    |a| == |b| && forall k | 0 <= k < |a| :: Lower(a[k]) == Lower(b[k])
  }

  // ---------------------------------------------------------------- tokens as a reader takes them

  function Digit(d: nat): char
    requires d < 10
  {
    ['0', '1', '2', '3', '4', '5', '6', '7', '8', '9'][d]
  }

  /** The decimal numeral of a number. */
  function Numeral(n: nat): string {
    if n < 10 then [Digit(n)] else Numeral(n / 10) + [Digit(n % 10)]
  }

  /** Reading a numeral back gives its number. */
  lemma {:induction false} ReadsNumerals(n: nat)
    ensures Digits(Numeral(n)) && Atoi(Numeral(n)) == n
  {
    var text := Numeral(n);
    assert text[|text| - 1] as int == '0' as int + n % 10;
    if n >= 10 {
      ReadsNumerals(n / 10);
      assert text[..|text| - 1] == Numeral(n / 10);
    } else {
      assert text[..0] == [];
    }
  }

  lemma DigitOf(c: char)
    requires '0' <= c <= '9'
    ensures Digit(c as int - '0' as int) == c
  {
  }

  lemma NumeralGrows(n: nat, d: nat)
    requires n > 0 && d < 10
    ensures Numeral(10 * n + d) == Numeral(n) + [Digit(d)]
  {
  }

  lemma SmallNumeral(d: nat)
    requires d < 10
    ensures Numeral(d) == [Digit(d)]
  {
  }

  lemma AtoiStep(digits: string)
    ensures Atoi([]) == 0
    ensures digits != [] ==> Atoi(digits) == 10 * Atoi(digits[..|digits| - 1]) + (digits[|digits| - 1] as int - '0' as int)
  {
  }

  lemma DigitsBefore(digits: string)
    requires Digits(digits)
    ensures '0' <= digits[|digits| - 1] <= '9' && (|digits| > 1 ==> Digits(digits[..|digits| - 1])) && (|digits| == 1 ==> digits[..0] == [])
    ensures digits == digits[..|digits| - 1] + [digits[|digits| - 1]] && digits != []
  {
  }

  /** One more digit behind a numeral with zeros in front. */
  lemma OneMoreDigit(zeros: nat, v: nat, d: nat) returns (zeros': nat)
    requires d < 10
    ensures Zeros(zeros') + Numeral(10 * v + d) == Zeros(zeros) + Numeral(v) + [Digit(d)]
  {
    hide Numeral, Digit;
    if v == 0 {
      zeros' := zeros + 1;
      SmallNumeral(0);
      SmallNumeral(d);
      DigitOf('0');
      assert Zeros(zeros') == Zeros(zeros) + ['0'];
    } else {
      zeros' := zeros;
      NumeralGrows(v, d);
    }
  }

  /** Every token of digits is a numeral with zeros in front, so its number is the numeral's. */
  lemma {:induction false} TokensAreNumerals(digits: string) returns (zeros: nat)
    requires Digits(digits)
    ensures Atoi(digits) >= 0 && Zeros(zeros) + Numeral(Atoi(digits)) == digits
  {
    hide Numeral, Digit, Atoi, Zeros, Digits;
    DigitsBefore(digits);
    AtoiStep(digits);
    var n := |digits| - 1;
    var d := digits[n] as int - '0' as int;
    DigitOf(digits[n]);
    if n == 0 {
      NoZeros();
      zeros := 0;
      SmallNumeral(d);
    } else {
      var before := TokensAreNumerals(digits[..n]);
      zeros := OneMoreDigit(before, Atoi(digits[..n]), d);
    }
  }

  lemma NoZeros()
    ensures Zeros(0) == []
  {
  }

  function Zeros(n: nat): string {
    if n == 0 then [] else Zeros(n - 1) + ['0']
  }

  /** Quotation marks around a text are taken off, and a text without them is left alone. */
  lemma QuotationMarks(text: string)
    ensures Quoted(['"'] + text + ['"']) && Unquoted(['"'] + text + ['"']) == text
    ensures text == [] || text[0] != '"' ==> Unquoted(text) == text
    ensures Quoted(text) ==> text == ['"'] + Unquoted(text) + ['"']
  {
  }

  /** Keys are the same when their characters are, a capital letter standing for its small one. */
  lemma KeysAreFolded(a: string, b: string)
    ensures SameKey(a, b) <==>
            |a| == |b| && forall k | 0 <= k < |a| ::
                            a[k] == b[k]
                            || ('A' <= a[k] <= 'Z' && b[k] as int == a[k] as int + 32)
                            || ('A' <= b[k] <= 'Z' && a[k] as int == b[k] as int + 32)
  {
  }

  // ---------------------------------------------------------------- the list stack

  datatype Item = IntItem(intval: int) | StrItem(str: string)

  function Pushed(stack: seq<Item>, item: Item): (after: seq<Item>)
    requires |stack| <= MAX_INT_STK_LEN
    ensures |after| <= MAX_INT_STK_LEN
  {
    if |stack| < MAX_INT_STK_LEN then stack + [item] else stack
  }

  /** The order the right-recursive list rules push in: an element after everything to its right. */
  function PushedRight(stack: seq<Item>, items: seq<Item>): (after: seq<Item>)
    requires |stack| <= MAX_INT_STK_LEN
    ensures |after| <= MAX_INT_STK_LEN
  {
    if items == [] then stack else Pushed(PushedRight(stack, items[1..]), items[0])
  }

  /** At most the last 64 elements. */
  function Final<T>(s: seq<T>): seq<T> {
    if |s| <= MAX_INT_STK_LEN then s else s[|s| - MAX_INT_STK_LEN..]
  }

  /** The elements kept are the last ones, at most 64 of them. */
  lemma FinalElements<T>(s: seq<T>)
    ensures |Final(s)| == if |s| <= 64 then |s| else 64
    ensures s == s[..|s| - |Final(s)|] + Final(s)
  {
  }

  function Reversed<T>(s: seq<T>): (r: seq<T>)
    ensures |r| == |s| && forall k | 0 <= k < |s| :: r[k] == s[|s| - 1 - k]
  {
    seq(|s|, k requires 0 <= k < |s| => s[|s| - 1 - k])
  }

  /** Right recursion pushes backwards and copying pops backwards: together they keep the source order, of
      as many final elements as the stack holds. */
  lemma {:induction false} ReversalsCancel(items: seq<Item>)
    ensures Reversed(PushedRight([], items)) == Final(items)
  {
    if items != [] {
      var rest := PushedRight([], items[1..]);
      ReversalsCancel(items[1..]);
      assert Reversed(rest) == Final(items[1..]);
      var r := Reversed(Pushed(rest, items[0]));
      if |rest| < MAX_INT_STK_LEN {
        assert r == [items[0]] + Reversed(rest);
      }
    }
  }

  function IntItems(items: seq<string>): (r: seq<Item>)
    ensures |r| == |items| && forall k | 0 <= k < |items| :: r[k] == IntItem(Atoi(items[k]))
  {
    seq(|items|, k requires 0 <= k < |items| => IntItem(Atoi(items[k])))
  }

  function StrItems(quotes: seq<string>): (r: seq<Item>)
    ensures |r| == |quotes| && forall k | 0 <= k < |quotes| :: r[k] == StrItem(Unquoted(quotes[k]))
  {
    seq(|quotes|, k requires 0 <= k < |quotes| => StrItem(Unquoted(quotes[k])))
  }

  function Ints(stack: seq<Item>): (r: seq<int>)
    requires forall k | 0 <= k < |stack| :: stack[k].IntItem?
    ensures |r| == |stack| && forall k | 0 <= k < |stack| :: r[k] == stack[k].intval
  {
    seq(|stack|, k requires 0 <= k < |stack| => stack[k].intval)
  }

  function Strs(stack: seq<Item>): (r: seq<string>)
    requires forall k | 0 <= k < |stack| :: stack[k].StrItem?
    ensures |r| == |stack| && forall k | 0 <= k < |stack| :: r[k] == stack[k].str
  {
    seq(|stack|, k requires 0 <= k < |stack| => stack[k].str)
  }

  // ---------------------------------------------------------------- the meaning of a file

  function Numerals(items: seq<string>): (r: seq<int>)
    ensures |r| == |items| && forall k | 0 <= k < |items| :: r[k] == Atoi(items[k])
  {
    seq(|items|, k requires 0 <= k < |items| => Atoi(items[k]))
  }

  function Strings(quotes: seq<string>): (r: seq<string>)
    ensures |r| == |quotes| && forall k | 0 <= k < |quotes| :: r[k] == Unquoted(quotes[k])
  {
    seq(|quotes|, k requires 0 <= k < |quotes| => Unquoted(quotes[k]))
  }

  /** What a definition says, whatever was defined before. */
  function Meaning(d: Definition): Entry {
    match d.data
    case Number(digits) => Entry(d.key, IntegerValue, Atoi(digits), Some(digits), None, None)
    case Quotation(q) => Entry(d.key, StringValue, -1, Some(Unquoted(q)), None, None)
    case On => Entry(d.key, BooleanValue, 1, Some("on"), None, None)
    case Off => Entry(d.key, BooleanValue, 0, Some("off"), None, None)
    case Numbers(items) => Entry(d.key, IntegerList, |Final(items)|, None, Some(Numerals(Final(items))), None)
    case Quotations(quotes) => Entry(d.key, StringList, |Final(quotes)|, None, None, Some(Strings(Final(quotes))))
  }

  lemma StackIs(items: seq<Item>)
    ensures |PushedRight([], items)| == |Final(items)|
    ensures forall k | 0 <= k < |PushedRight([], items)| :: PushedRight([], items)[k] == Final(items)[|Final(items)| - 1 - k]
  {
    hide PushedRight, Final;
    ReversalsCancel(items);
    var stack := PushedRight([], items);
    assert |Reversed(stack)| == |stack|;
    forall k | 0 <= k < |stack| ensures stack[k] == Final(items)[|stack| - 1 - k] {
      assert Reversed(stack)[|stack| - 1 - k] == stack[k];
    }
  }

  lemma FinalNumbers(items: seq<string>)
    ensures Final(IntItems(items)) == IntItems(Final(items))
  {
  }

  lemma FinalQuotes(quotes: seq<string>)
    ensures Final(StrItems(quotes)) == StrItems(Final(quotes))
  {
  }

  /** The stack a list rule leaves behind, popped, is the list's meaning. */
  lemma NumbersMeaning(items: seq<string>)
    ensures var stack := PushedRight([], IntItems(items));
            && |stack| == |Final(items)| && (forall k | 0 <= k < |stack| :: stack[k].IntItem?)
            && Ints(Reversed(stack)) == Numerals(Final(items))
  {
    hide PushedRight, Final;
    StackIs(IntItems(items));
    FinalNumbers(items);
  }

  lemma QuotationsMeaning(quotes: seq<string>)
    ensures var stack := PushedRight([], StrItems(quotes));
            && |stack| == |Final(quotes)| && (forall k | 0 <= k < |stack| :: stack[k].StrItem?)
            && Strs(Reversed(stack)) == Strings(Final(quotes))
  {
    hide PushedRight, Final;
    StackIs(StrItems(quotes));
    FinalQuotes(quotes);
  }

  /** The entries a file leaves, newest first. */
  function Entries(defs: seq<Definition>): seq<Entry> {
    if defs == [] then [] else [Meaning(defs[|defs| - 1])] + Entries(defs[..|defs| - 1])
  }

  lemma {:induction false} EntriesFirst(defs: seq<Definition>)
    requires defs != []
    ensures Entries(defs) == Entries(defs[1..]) + [Meaning(defs[0])]
  {
    if |defs| > 1 {
      EntriesFirst(defs[..|defs| - 1]);
      assert defs[..|defs| - 1][1..] == defs[1..][..|defs| - 2];
    }
  }

  /** The first entry of that key. */
  function Lookup(entries: seq<Entry>, key: string): Option<Entry> {
    if entries == [] then None else if SameKey(key, entries[0].key) then Some(entries[0]) else Lookup(entries[1..], key)
  }

  /** Definition `i` is the last one of that key. */
  ghost predicate LastOf(defs: seq<Definition>, key: string, i: int) {
    0 <= i < |defs| && SameKey(key, defs[i].key) && forall j | i < j < |defs| :: !SameKey(key, defs[j].key)
  }

  lemma LookupNext(defs: seq<Definition>, key: string)
    requires defs != []
    ensures var n := |defs| - 1;
            Lookup(Entries(defs), key) == if SameKey(key, defs[n].key) then Some(Meaning(defs[n])) else Lookup(Entries(defs[..n]), key)
  {
    hide SameKey, Meaning;
    KeyOfMeaning(defs[|defs| - 1]);
    assert Entries(defs)[1..] == Entries(defs[..|defs| - 1]);
  }

  lemma KeyOfMeaning(d: Definition)
    ensures Meaning(d).key == d.key
  {
  }

  lemma LastOfStep(defs: seq<Definition>, key: string, i: int)
    requires LastOf(defs, key, i)
    ensures var n := |defs| - 1;
            if SameKey(key, defs[n].key) then i == n else 0 <= i < n && LastOf(defs[..n], key, i) && defs[..n][i] == defs[i]
  {
    hide SameKey;
  }

  /** A lookup answers with the last definition in the file, and with nothing only when there is none. */
  lemma {:induction false} LookupSeesTheLast(defs: seq<Definition>, key: string)
    ensures forall i | LastOf(defs, key, i) :: Lookup(Entries(defs), key) == Some(Meaning(defs[i]))
    ensures Lookup(Entries(defs), key).None? <==> forall i | 0 <= i < |defs| :: !SameKey(key, defs[i].key)
  {
    if defs != [] {
      hide SameKey, Meaning, Lookup, Entries;
      var n := |defs| - 1;
      LookupSeesTheLast(defs[..n], key);
      LookupNext(defs, key);
      forall i | LastOf(defs, key, i) ensures Lookup(Entries(defs), key) == Some(Meaning(defs[i])) {
        LastOfStep(defs, key, i);
      }
      if !SameKey(key, defs[n].key) {
        NoneBefore(defs, key);
      }
    }
  }

  lemma NoneBefore(defs: seq<Definition>, key: string)
    requires defs != [] && !SameKey(key, defs[|defs| - 1].key)
    ensures var before := defs[..|defs| - 1];
            (forall i | 0 <= i < |before| :: !SameKey(key, before[i].key)) <==> forall i | 0 <= i < |defs| :: !SameKey(key, defs[i].key)
  {
    hide SameKey;
    assert forall i | 0 <= i < |defs| - 1 :: defs[..|defs| - 1][i] == defs[i];
  }

  function ListOf(entries: seq<Entry>, key: string): Option<seq<int>> {
    var e := Lookup(entries, key);
    if e.Some? && e.value.entryType == IntegerList then e.value.list else None
  }

  function StringsOf(entries: seq<Entry>, key: string): Option<seq<string>> {
    var e := Lookup(entries, key);
    if e.Some? && e.value.entryType == StringList then e.value.slist else None
  }

  /** Asking for a list: the final elements of the last definition of the key, in the order of the file,
      when that is a list of the type asked for; otherwise nothing. */
  lemma ListsOfAFile(defs: seq<Definition>, key: string, i: int)
    requires LastOf(defs, key, i)
    ensures ListOf(Entries(defs), key) == if defs[i].data.Numbers? then Some(Numerals(Final(defs[i].data.items))) else None
    ensures StringsOf(Entries(defs), key) == if defs[i].data.Quotations? then Some(Strings(Final(defs[i].data.quotes))) else None
  {
    LookupSeesTheLast(defs, key);
  }

  /** What a file says of a key that it defines last as a number, a string or a flag. */
  lemma ValuesOfAFile(defs: seq<Definition>, key: string, i: int)
    requires LastOf(defs, key, i)
    ensures var e := Lookup(Entries(defs), key);
            && e.Some?
            && (defs[i].data.Number? ==> e.value.entryType == IntegerValue && e.value.ivalue == Atoi(defs[i].data.digits) && e.value.value == Some(defs[i].data.digits))
            && (defs[i].data.Quotation? ==> e.value.entryType == StringValue && e.value.ivalue == -1 && e.value.value == Some(Unquoted(defs[i].data.quoted)))
            && (defs[i].data == On ==> e.value.entryType == BooleanValue && e.value.ivalue == 1 && e.value.value == Some("on"))
            && (defs[i].data == Off ==> e.value.entryType == BooleanValue && e.value.ivalue == 0 && e.value.value == Some("off"))
            && (defs[i].data.Numbers? ==> e.value.entryType == IntegerList) && (defs[i].data.Quotations? ==> e.value.entryType == StringList)
  {
    LookupSeesTheLast(defs, key);
  }
}
