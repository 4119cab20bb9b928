/** Random short identifiers: `PreviewGenerator._generate_short_id`
    (src/preview_generator.py) and `TaskStorage._generate_task_id`
    (src/task_storage.py) are the same function,
    `''.join(secrets.choice(ascii_letters + digits) for _ in range(length))`.
    The random source is a parameter: `draw(i)` is the index `secrets.choice`
    picks for the i-th character.
 */
module ShortId {

  /** `string.ascii_letters + string.digits`: a-z, A-Z, 0-9 in that order. */
  const Alphabet: string :=
    Run('a', 26) + Run('A', 26) + Run('0', 10)

  /** `n` consecutive characters starting at `first`. */
  function Run(first: char, n: nat): (r: string)
    requires first as int + n <= 0x7F
    ensures |r| == n
    ensures forall i :: 0 <= i < n ==> r[i] == (first as int + i) as char
  {
    seq(n, i requires 0 <= i < n => (first as int + i) as char)
  }

  predicate IsAlnum(c: char) {
    'a' <= c <= 'z' || 'A' <= c <= 'Z' || '0' <= c <= '9'
  }

  predicate IsShortId(s: string, length: nat) {
    |s| == length && forall i :: 0 <= i < |s| ==> IsAlnum(s[i])
  }

  /** The alphabet is exactly the ASCII letters and digits. */
  lemma AlphabetIsAlnum()
    ensures |Alphabet| == 62
    ensures forall c :: c in Alphabet <==> IsAlnum(c)
  {
    forall c | IsAlnum(c)
      ensures c in Alphabet
    {
      assert Alphabet[IndexIn(c)] == c;
    }
  }

  /** `_generate_short_id(length)`: exactly `length` characters, each one a
      letter or digit, the i-th chosen by `draw(i)`. */
  function Generate(length: nat, draw: nat -> nat): (id: string)
    ensures IsShortId(id, length)
    ensures forall i :: 0 <= i < length ==> id[i] == Alphabet[draw(i) % |Alphabet|]
  {
    AlphabetIsAlnum();
    seq(length, i requires 0 <= i => Alphabet[draw(i) % |Alphabet|])
  }

  /** Every id of the right shape is produced by some sequence of draws. */
  lemma EveryShortIdIsDrawn(id: string, length: nat)
    requires IsShortId(id, length)
    ensures exists draw: nat -> nat :: Generate(length, draw) == id
  {
    var pick := (i: nat) => if i < |id| then IndexIn(id[i]) else 0;
    var g := Generate(length, pick);
    forall i | 0 <= i < length ensures g[i] == id[i] {
      DrawPicks(id[i]);
    }
    assert g == id;
  }

  /** Drawing a character's own index yields that character. */
  lemma DrawPicks(c: char)
    requires IsAlnum(c)
    ensures Alphabet[IndexIn(c) % |Alphabet|] == c
  {
    assert |Alphabet| == 62;
    assert IndexIn(c) % 62 == IndexIn(c);
  }

  /** The position of an alphanumeric character in the alphabet. */
  function IndexIn(c: char): (i: nat)
    requires IsAlnum(c)
    ensures i < |Alphabet| && Alphabet[i] == c
  {
    if 'a' <= c <= 'z' then c as int - 'a' as int
    else if 'A' <= c <= 'Z' then 26 + c as int - 'A' as int
    else 52 + c as int - '0' as int
  }
}
