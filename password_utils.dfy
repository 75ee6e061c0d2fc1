/** Password generation and strength scoring (lib/password-utils.ts). The
    source draws its random numbers from `crypto.getRandomValues`; here they
    come from an oracle `rand`, and draw number k is `rand(k)`. Draws are
    numbered in the order the source makes them: one per selected set, then
    one per filler character, then one per shuffle step. */
module PasswordUtils {

  type Uint32 = x: int | 0 <= x < 0x1_0000_0000

  const LOWERCASE: string := "abcdefghijklmnopqrstuvwxyz"
  const UPPERCASE: string := "ABCDEFGHIJKLMNOPQRSTUVWXYZ"
  const NUMBERS: string := "0123456789"
  const SYMBOLS: string := "!@#$%^&*()_+-=[]{}|;:,.<>?"

  datatype CharacterOptions = CharacterOptions(
    lowercase: bool, uppercase: bool, numbers: bool, symbols: bool)

  datatype Category = Lower | Upper | Number | Symbol

  function Chars(cat: Category): string {
    match cat
    case Lower => LOWERCASE
    case Upper => UPPERCASE
    case Number => NUMBERS
    case Symbol => SYMBOLS
  }

  predicate Selected(o: CharacterOptions, cat: Category) {
    match cat
    case Lower => o.lowercase
    case Upper => o.uppercase
    case Number => o.numbers
    case Symbol => o.symbols
  }

  /** The selected categories in the order the source tests them. */
  function SelectedCategories(o: CharacterOptions): seq<Category> {
    (if o.lowercase then [Lower] else []) + (if o.uppercase then [Upper] else [])
    + (if o.numbers then [Number] else []) + (if o.symbols then [Symbol] else [])
  }

  /** Each selected category is listed, once, and no other. */
  lemma CategoriesSelected(o: CharacterOptions)
    ensures forall cat :: cat in SelectedCategories(o) <==> Selected(o, cat)
    ensures var cats := SelectedCategories(o);
      forall i, j :: 0 <= i < j < |cats| ==> cats[i] != cats[j]
  {
  }

  /** `selectedSets`: the character set of each selected category. */
  function SelectedSets(o: CharacterOptions): (sets: seq<string>)
    ensures forall i :: 0 <= i < |sets| ==> |sets[i]| >= 1
  {
    (if o.lowercase then [LOWERCASE] else []) + (if o.uppercase then [UPPERCASE] else [])
    + (if o.numbers then [NUMBERS] else []) + (if o.symbols then [SYMBOLS] else [])
  }

  /** The i-th selected set is the set of the i-th selected category. */
  lemma SetsOfCategories(o: CharacterOptions)
    ensures |SelectedSets(o)| == |SelectedCategories(o)|
    ensures forall i :: 0 <= i < |SelectedSets(o)| ==> SelectedSets(o)[i] == Chars(SelectedCategories(o)[i])
  {
  }

  /** `characterPool`: the selected sets one after another. */
  function Pool(o: CharacterOptions): string {
    (if o.lowercase then LOWERCASE else []) + (if o.uppercase then UPPERCASE else [])
    + (if o.numbers then NUMBERS else []) + (if o.symbols then SYMBOLS else [])
  }

  /** A character is in the pool exactly when it belongs to a selected set. */
  lemma PoolMembers(o: CharacterOptions, c: char)
    ensures c in Pool(o) <==> exists cat :: Selected(o, cat) && c in Chars(cat)
  {
    if c in Pool(o) {
      if o.lowercase && c in LOWERCASE {
        assert Selected(o, Lower) && c in Chars(Lower);
      } else if o.uppercase && c in UPPERCASE {
        assert Selected(o, Upper) && c in Chars(Upper);
      } else if o.numbers && c in NUMBERS {
        assert Selected(o, Number) && c in Chars(Number);
      } else {
        assert Selected(o, Symbol) && c in Chars(Symbol);
      }
    }
  }

  // ---- the four sets are disjoint -----------------------------------------

  predicate IsLowerLetter(c: char) { 'a' <= c <= 'z' }
  predicate IsUpperLetter(c: char) { 'A' <= c <= 'Z' }
  predicate IsDecimalDigit(c: char) { '0' <= c <= '9' }

  /** Which category a character of the sets belongs to, decided from its
      code point alone. */
  function CategoryOf(c: char): Category {
    if IsLowerLetter(c) then Lower
    else if IsUpperLetter(c) then Upper
    else if IsDecimalDigit(c) then Number
    else Symbol
  }

  lemma SetsClassified(cat: Category, c: char)
    requires c in Chars(cat)
    ensures CategoryOf(c) == cat
  {
    match cat
    case Lower => LowercaseClassified();
    case Upper => UppercaseClassified();
    case Number => NumbersClassified();
    case Symbol => SymbolsClassified();
  }

  lemma LowercaseClassified()
    ensures forall x :: x in LOWERCASE ==> IsLowerLetter(x)
  {
  }

  lemma UppercaseClassified()
    ensures forall x :: x in UPPERCASE ==> IsUpperLetter(x)
  {
  }

  lemma NumbersClassified()
    ensures forall x :: x in NUMBERS ==> IsDecimalDigit(x)
  {
  }

  lemma SymbolsClassified()
    ensures forall x :: x in SYMBOLS ==> !IsLowerLetter(x) && !IsUpperLetter(x) && !IsDecimalDigit(x)
  {
  }

  /** No character belongs to two of the four sets. */
  lemma SetsDisjoint(a: Category, b: Category, c: char)
    requires c in Chars(a) && c in Chars(b)
    ensures a == b
  {
    SetsClassified(a, c);
    SetsClassified(b, c);
  }

  // ---- randomness -----------------------------------------------------------

  /** `getSecureRandomInt`: a 32-bit random value reduced modulo `max`. */
  function SecureRandomInt(r: Uint32, max: nat): (n: nat)
    requires max >= 1
    ensures n < max
    ensures r < max ==> n == r
  {
    r % max
  }

  // ---- the specification of generatePassword ------------------------------

  /** One character drawn from each selected set, draws `start`, `start+1`, ... */
  function Guaranteed(sets: seq<string>, rand: nat -> Uint32, start: nat): (g: string)
    requires forall i :: 0 <= i < |sets| ==> |sets[i]| >= 1
    ensures |g| == |sets|
  {
    seq(|sets|, i requires 0 <= i < |sets| => Draw(sets[i], rand(start + i)))
  }

  /** The i-th guaranteed character comes from the i-th set. */
  lemma GuaranteedFromSets(sets: seq<string>, rand: nat -> Uint32, start: nat, i: nat)
    requires forall n :: 0 <= n < |sets| ==> |sets[n]| >= 1
    requires i < |sets|
    ensures Guaranteed(sets, rand, start)[i] in sets[i]
  {
    assert Guaranteed(sets, rand, start)[i] == Draw(sets[i], rand(start + i));
  }

  /** `count` characters drawn from the pool, draws `start`, `start+1`, ... */
  function Fill(pool: string, count: nat, rand: nat -> Uint32, start: nat): (f: string)
    requires |pool| >= 1
    ensures |f| == count
  {
    seq(count, i requires 0 <= i < count => Draw(pool, rand(start + i)))
  }

  /** Every filler character comes from the pool. */
  lemma FillFromPoolMembers(pool: string, count: nat, rand: nat -> Uint32, start: nat, i: nat)
    requires |pool| >= 1 && i < count
    ensures Fill(pool, count, rand, start)[i] in pool
  {
    assert Fill(pool, count, rand, start)[i] == Draw(pool, rand(start + i));
  }

  /** A character of `s` picked by one random value. */
  function Draw(s: string, r: Uint32): (c: char)
    requires |s| >= 1
    ensures c in s
  {
    s[SecureRandomInt(r, |s|)]
  }

  function Swap(s: string, i: nat, j: nat): (t: string)
    requires i < |s| && j < |s|
    ensures |t| == |s|
  {
    s[i := s[j]][j := s[i]]
  }

  /** Durstenfeld's Fisher–Yates pass from position `top` down to 1: step
      `top` swaps it with a position drawn below or at it (draw `draw`). */
  function Shuffle(s: string, top: int, rand: nat -> Uint32, draw: nat): (t: string)
    requires top < |s|
    ensures |t| == |s|
    decreases top
  {
    if top <= 0 then s
    else
      var j := SecureRandomInt(rand(draw), top + 1);
      Shuffle(Swap(s, top, j), top - 1, rand, draw + 1)
  }

  /** The number of filler characters: what is left of `length` after the
      guaranteed characters, or none. */
  function Remaining(length: int, k: nat): nat {
    if length - k > 0 then length - k else 0
  }

  /** The characters before the shuffle: one guaranteed character per set,
      then the fill from the pool. */
  function UnshuffledFrom(length: int, pool: string, sets: seq<string>, rand: nat -> Uint32): string
    requires |pool| >= 1 && forall i :: 0 <= i < |sets| ==> |sets[i]| >= 1
  {
    Guaranteed(sets, rand, 0) + Fill(pool, Remaining(length, |sets|), rand, |sets|)
  }

  /** The password for a pool and its sets: nothing from an empty pool,
      otherwise the unshuffled characters shuffled with the draws that
      follow theirs: max(length, |sets|) characters. */
  function PasswordFrom(length: int, pool: string, sets: seq<string>, rand: nat -> Uint32): (p: string)
    requires forall i :: 0 <= i < |sets| ==> |sets[i]| >= 1
    ensures |pool| == 0 ==> p == ""
    ensures |pool| >= 1 ==> |p| == if length > |sets| then length else |sets|
  {
    if |pool| == 0 then ""
    else
      var buffer := UnshuffledFrom(length, pool, sets, rand);
      Shuffle(buffer, |buffer| - 1, rand, |sets| + Remaining(length, |sets|))
  }

  function Unshuffled(length: int, o: CharacterOptions, rand: nat -> Uint32): string
    requires |Pool(o)| >= 1
  {
    UnshuffledFrom(length, Pool(o), SelectedSets(o), rand)
  }

  /** What `generatePassword(length, options)` returns for the draws `rand`:
      "" for an empty pool, else one character per selected set or
      `length` characters, whichever is more. */
  function Password(length: int, o: CharacterOptions, rand: nat -> Uint32): (p: string)
    ensures |Pool(o)| == 0 ==> p == ""
    ensures |Pool(o)| >= 1 ==> |p| == if length > |SelectedSets(o)| then length else |SelectedSets(o)|
  {
    PasswordFrom(length, Pool(o), SelectedSets(o), rand)
  }

  /** Connects the steps of the method to `PasswordFrom`. */
  lemma Generated(length: int, pool: string, sets: seq<string>, rand: nat -> Uint32,
                  chars: string, draw: nat, password: string)
    requires |pool| >= 1 && forall i :: 0 <= i < |sets| ==> |sets[i]| >= 1
    requires chars == Guaranteed(sets, rand, 0) + Fill(pool, Remaining(length - |sets|, 0), rand, |sets|)
    requires draw == |sets| + Remaining(length, |sets|)
    requires password == Shuffle(chars, |chars| - 1, rand, draw)
    ensures password == PasswordFrom(length, pool, sets, rand)
  {
    assert Remaining(length - |sets|, 0) == Remaining(length, |sets|);
    assert chars == UnshuffledFrom(length, pool, sets, rand);
  }

  // ---- generatePassword ----------------------------------------------------

  method GeneratePassword(length: int, options: CharacterOptions, rand: nat -> Uint32)
    returns (password: string)
    ensures password == Password(length, options, rand)
  {
    var characterPool, selectedSets := BuildPool(options);
    if |characterPool| == 0 {
      return "";
    }

    // one guaranteed character per selected set, then the fill, then the shuffle
    var passwordChars := PickGuaranteed(selectedSets, rand);
    var k := |passwordChars|;
    passwordChars := FillFromPool(passwordChars, characterPool, length - k, rand, k);
    assert Remaining(length - k, 0) == Remaining(length, k);
    var draw := k + Remaining(length, k);
    password := ShuffleChars(passwordChars, rand, draw);
    Generated(length, characterPool, selectedSets, rand, passwordChars, draw, password);
  }

  /** The four tests that grow `characterPool` and `selectedSets`. */
  method BuildPool(options: CharacterOptions) returns (characterPool: string, selectedSets: seq<string>)
    ensures characterPool == Pool(options)
    ensures selectedSets == SelectedSets(options)
  {
    characterPool := "";
    selectedSets := [];
    if options.lowercase {
      characterPool := characterPool + LOWERCASE;
      selectedSets := selectedSets + [LOWERCASE];
    }
    ghost var p1, s1 := characterPool, selectedSets;
    assert p1 == (if options.lowercase then LOWERCASE else []);
    if options.uppercase {
      characterPool := characterPool + UPPERCASE;
      selectedSets := selectedSets + [UPPERCASE];
    }
    ghost var p2, s2 := characterPool, selectedSets;
    assert p2 == p1 + (if options.uppercase then UPPERCASE else []);
    assert s2 == s1 + (if options.uppercase then [UPPERCASE] else []);
    if options.numbers {
      characterPool := characterPool + NUMBERS;
      selectedSets := selectedSets + [NUMBERS];
    }
    ghost var p3, s3 := characterPool, selectedSets;
    assert p3 == p2 + (if options.numbers then NUMBERS else []);
    assert s3 == s2 + (if options.numbers then [NUMBERS] else []);
    if options.symbols {
      characterPool := characterPool + SYMBOLS;
      selectedSets := selectedSets + [SYMBOLS];
    }
    assert characterPool == p3 + (if options.symbols then SYMBOLS else []);
    assert selectedSets == s3 + (if options.symbols then [SYMBOLS] else []);
  }

  /** The loop over `selectedSets`: one character from each, draws 0, 1, ... */
  method PickGuaranteed(selectedSets: seq<string>, rand: nat -> Uint32) returns (passwordChars: string)
    requires forall i :: 0 <= i < |selectedSets| ==> |selectedSets[i]| >= 1
    ensures passwordChars == Guaranteed(selectedSets, rand, 0)
  {
    passwordChars := [];
    for i := 0 to |selectedSets|
      invariant passwordChars == Guaranteed(selectedSets[..i], rand, 0)
    {
      var charSet := selectedSets[i];
      var randomIndex := SecureRandomInt(rand(i), |charSet|);
      passwordChars := passwordChars + [charSet[randomIndex]];
      assert selectedSets[..i + 1] == selectedSets[..i] + [charSet];
    }
    assert selectedSets[..|selectedSets|] == selectedSets;
  }

  /** The fill loop: `remainingLength` characters (none if it is not
      positive) from the pool, draws `start`, `start+1`, ... */
  method FillFromPool(chars: string, characterPool: string, remainingLength: int, rand: nat -> Uint32, start: nat)
    returns (passwordChars: string)
    requires |characterPool| >= 1
    ensures passwordChars == chars + Fill(characterPool, Remaining(remainingLength, 0), rand, start)
  {
    passwordChars := chars;
    var i := 0;
    while i < remainingLength
      invariant 0 <= i <= Remaining(remainingLength, 0)
      invariant passwordChars == chars + Fill(characterPool, i, rand, start)
    {
      var randomIndex := SecureRandomInt(rand(start + i), |characterPool|);
      passwordChars := passwordChars + [characterPool[randomIndex]];
      i := i + 1;
    }
  }

  /** `passwordChars` as an array, shuffled in place and joined back. */
  method ShuffleChars(passwordChars: string, rand: nat -> Uint32, draw: nat) returns (joined: string)
    ensures joined == Shuffle(passwordChars, |passwordChars| - 1, rand, draw)
  {
    var a := new char[|passwordChars|](n requires 0 <= n < |passwordChars| => passwordChars[n]);
    assert a[..] == passwordChars;
    ShuffleInPlace(a, rand, draw);
    joined := a[..];
  }

  /** The Fisher–Yates loop, in place, draws `draw`, `draw+1`, ... */
  method ShuffleInPlace(a: array<char>, rand: nat -> Uint32, draw: nat)
    modifies a
    ensures a[..] == Shuffle(old(a[..]), a.Length - 1, rand, draw)
  {
    ghost var goal := Shuffle(a[..], a.Length - 1, rand, draw);
    ghost var current := a[..];
    var top := a.Length - 1;
    var d := draw;
    while top > 0
      invariant top < a.Length == |current|
      invariant a[..] == current
      invariant Shuffle(current, top, rand, d) == goal
    {
      var j := SecureRandomInt(rand(d), top + 1);
      ShuffleAdvance(current, top, j, rand, d, goal);
      SwapInPlace(a, top, j);
      current := Swap(current, top, j);
      top := top - 1;
      d := d + 1;
    }
  }

  /** `[arr[i], arr[j]] = [arr[j], arr[i]]`. */
  method SwapInPlace(a: array<char>, i: nat, j: nat)
    requires i < a.Length && j < a.Length
    modifies a
    ensures a[..] == Swap(old(a[..]), i, j)
  {
    ghost var before := a[..];
    var t := a[i];
    a[i] := a[j];
    assert a[..] == before[i := before[j]];
    a[j] := t;
  }

  /** Swapping two positions keeps every character, as often. */
  lemma SwapPermutes(s: string, i: nat, j: nat)
    requires i < |s| && j < |s|
    ensures multiset(Swap(s, i, j)) == multiset(s)
  {
  }

  /** The shuffle is a permutation of its input. */
  lemma {:induction false} ShufflePermutes(s: string, top: int, rand: nat -> Uint32, draw: nat)
    requires top < |s|
    ensures multiset(Shuffle(s, top, rand, draw)) == multiset(s)
    decreases top
  {
    if top > 0 {
      var j := SecureRandomInt(rand(draw), top + 1);
      SwapPermutes(s, top, j);
      ShufflePermutes(Swap(s, top, j), top - 1, rand, draw + 1);
    }
  }

  /** One step of the pass leaves the rest of the pass to reach the same
      result. */
  lemma ShuffleAdvance(s: string, top: int, j: nat, rand: nat -> Uint32, draw: nat, goal: string)
    requires 0 < top < |s| && j == SecureRandomInt(rand(draw), top + 1)
    requires Shuffle(s, top, rand, draw) == goal
    ensures Shuffle(Swap(s, top, j), top - 1, rand, draw + 1) == goal
  {
  }

  // ---- what the generated password satisfies --------------------------------

  /** With every option off the result is empty. */
  lemma NoOptionsEmpty(length: int, o: CharacterOptions, rand: nat -> Uint32)
    requires !o.lowercase && !o.uppercase && !o.numbers && !o.symbols
    ensures Password(length, o, rand) == ""
  {
    assert SelectedCategories(o) == [];
  }

  /** With k >= 1 categories selected there are max(length, k) characters. */
  lemma PasswordLength(length: int, o: CharacterOptions, rand: nat -> Uint32)
    requires TypesCount(o) >= 1
    ensures |Password(length, o, rand)| == if length > TypesCount(o) then length else TypesCount(o)
  {
    NonEmptyPool(o);
    SetsOfCategories(o);
    var sets := SelectedSets(o);
    assert |UnshuffledFrom(length, Pool(o), sets, rand)| == |sets| + Remaining(length, |sets|);
  }

  lemma NonEmptyPool(o: CharacterOptions)
    requires TypesCount(o) >= 1
    ensures |Pool(o)| >= 1
  {
  }

  /** The shuffle only rearranges: the password holds the unshuffled
      characters, each as often. */
  lemma PasswordPermutation(length: int, o: CharacterOptions, rand: nat -> Uint32)
    requires |Pool(o)| >= 1
    ensures multiset(Password(length, o, rand)) == multiset(Unshuffled(length, o, rand))
  {
    PermutationFrom(length, Pool(o), SelectedSets(o), rand);
  }

  lemma PermutationFrom(length: int, pool: string, sets: seq<string>, rand: nat -> Uint32)
    requires |pool| >= 1 && forall i :: 0 <= i < |sets| ==> |sets[i]| >= 1
    ensures multiset(PasswordFrom(length, pool, sets, rand)) == multiset(UnshuffledFrom(length, pool, sets, rand))
  {
    var buffer := UnshuffledFrom(length, pool, sets, rand);
    var draw := |sets| + Remaining(length, |sets|);
    assert PasswordFrom(length, pool, sets, rand) == Shuffle(buffer, |buffer| - 1, rand, draw);
    ShufflePermutes(buffer, |buffer| - 1, rand, draw);
  }

  /** Every selected category is represented in the password. */
  lemma PasswordCoversSelected(length: int, o: CharacterOptions, rand: nat -> Uint32, cat: Category)
    requires Selected(o, cat)
    ensures exists i :: 0 <= i < |Password(length, o, rand)| && Password(length, o, rand)[i] in Chars(cat)
  {
    CategoriesSelected(o);
    SetsOfCategories(o);
    var cats, sets := SelectedCategories(o), SelectedSets(o);
    var n :| 0 <= n < |cats| && cats[n] == cat;
    NonEmptyPool(o);
    var buffer := Unshuffled(length, o, rand);
    GuaranteedFromSets(sets, rand, 0, n);
    var c := buffer[n];
    assert c == Guaranteed(sets, rand, 0)[n];
    assert c in Chars(cat);
    assert c in multiset(buffer);
    PasswordPermutation(length, o, rand);
    var p := Password(length, o, rand);
    assert c in multiset(p);
    var i :| 0 <= i < |p| && p[i] == c;
  }

  /** Every character comes from the pool, so from a selected set, and none
      from a set that was not selected. */
  lemma PasswordFromPool(length: int, o: CharacterOptions, rand: nat -> Uint32, c: char)
    requires c in Password(length, o, rand)
    ensures c in Pool(o)
    ensures forall cat :: !Selected(o, cat) ==> c !in Chars(cat)
  {
    NonEmptyPoolOf(length, o, rand, c);
    var buffer := Unshuffled(length, o, rand);
    PasswordPermutation(length, o, rand);
    assert c in multiset(buffer);
    var sets := SelectedSets(o);
    var k := |sets|;
    var i :| 0 <= i < |buffer| && buffer[i] == c;
    if i < k {
      GuaranteedFromSets(sets, rand, 0, i);
      assert c == Guaranteed(sets, rand, 0)[i];
      SetsOfCategories(o);
      CategoriesSelected(o);
      var cat := SelectedCategories(o)[i];
      assert Selected(o, cat) && c in Chars(cat);
      PoolMembers(o, c);
    } else {
      FillFromPoolMembers(Pool(o), Remaining(length, k), rand, k, i - k);
      assert c == Fill(Pool(o), Remaining(length, k), rand, k)[i - k];
    }
    PoolMembers(o, c);
    forall cat | !Selected(o, cat) ensures c !in Chars(cat) {
      if c in Chars(cat) {
        var sel :| Selected(o, sel) && c in Chars(sel);
        SetsDisjoint(cat, sel, c);
      }
    }
  }

  lemma NonEmptyPoolOf(length: int, o: CharacterOptions, rand: nat -> Uint32, c: char)
    requires c in Password(length, o, rand)
    ensures |Pool(o)| >= 1
  {
  }

  // ---- calculateStrength --------------------------------------------------

  datatype PasswordStrength = Weak | Fair | Good | Strong

  /** The number of flags set. */
  function TypesCount(o: CharacterOptions): (n: nat)
    ensures n == |SelectedCategories(o)| && n <= 4
  {
    (if o.lowercase then 1 else 0) + (if o.uppercase then 1 else 0)
    + (if o.numbers then 1 else 0) + (if o.symbols then 1 else 0)
  }

  /** The strength table: under 12 characters only Weak or Fair (Fair with
      three or more types); from 12 on, three or more types give Strong at
      16 characters with all four types or at 20 characters, else Good, and
      fewer types give Fair with two types, else Weak. */
  function CalculateStrength(password: string, options: CharacterOptions): (s: PasswordStrength)
    ensures var len, n := |password|, TypesCount(options);
      && (s == Strong <==> len >= 12 && n >= 3 && ((len >= 16 && n == 4) || len >= 20))
      && (s == Good <==> len >= 12 && n >= 3 && !((len >= 16 && n == 4) || len >= 20))
      && (s == Fair <==> (len < 12 && n >= 3) || (len >= 12 && n == 2))
      && (s == Weak <==> n <= 1 || (len < 12 && n == 2))
  {
    var length := |password|;
    var typesCount := TypesCount(options);
    if length < 12 then
      (if typesCount >= 3 then Fair else Weak)
    else if length >= 12 && typesCount >= 3 then
      (if (length >= 16 && typesCount == 4) || length >= 20 then Strong else Good)
    else if typesCount >= 2 then Fair
    else Weak
  }

  function Rank(s: PasswordStrength): nat {
    match s
    case Weak => 0
    case Fair => 1
    case Good => 2
    case Strong => 3
  }

  /** Only the password's length and the number of flags matter. */
  lemma StrengthDependsOnLengthAndCount(p: string, q: string, o: CharacterOptions, u: CharacterOptions)
    requires |p| == |q| && TypesCount(o) == TypesCount(u)
    ensures CalculateStrength(p, o) == CalculateStrength(q, u)
  {
  }

  /** A longer password or one with more types is never rated lower. */
  lemma StrengthMonotone(p: string, q: string, o: CharacterOptions, u: CharacterOptions)
    requires |p| <= |q| && TypesCount(o) <= TypesCount(u)
    ensures Rank(CalculateStrength(p, o)) <= Rank(CalculateStrength(q, u))
  {
  }
}
