/** The word bank: a fixed list of candidate words from which each round
    draws one, lower-cased. The random draw is an argument here. */
module Words {

  datatype WordBank = WordBank(words: seq<string>)

  predicate IsUpper(ch: char)
  {
    'A' <= ch <= 'Z'
  }

  function LowerChar(ch: char): (r: char)
  {
    if IsUpper(ch) then (ch as int + ('a' as int - 'A' as int)) as char else ch
  }

  /** Lower-casing of the ASCII letters; every other character is kept. */
  function ToLower(s: string): (r: string)
    ensures |r| == |s|
    ensures forall i :: 0 <= i < |r| ==> !IsUpper(r[i])
    ensures forall i :: 0 <= i < |r| && !IsUpper(s[i]) ==> r[i] == s[i]
    ensures forall i :: 0 <= i < |r| && IsUpper(s[i]) ==> r[i] as int == s[i] as int + 32
  {
    seq(|s|, i requires 0 <= i < |s| => LowerChar(s[i]))
  }

  /** Lower-casing twice is lower-casing once. */
  lemma ToLowerIdempotent(s: string)
    ensures ToLower(ToLower(s)) == ToLower(s)
  {
    var once := ToLower(s);
    assert forall i :: 0 <= i < |once| ==> ToLower(once)[i] == once[i];
  }

  /** nextWord: the word at the drawn index, lower-cased. `draw` stands for
      the value random.nextInt(words.size()) returns, which lies in
      [0, size); an empty bank has no such value. */
  function NextWord(bank: WordBank, draw: nat): (w: string)
    requires draw < |bank.words|
    ensures |w| == |bank.words[draw]|
    ensures forall i :: 0 <= i < |w| ==> !IsUpper(w[i])
    ensures forall i :: 0 <= i < |w| ==> LowerChar(bank.words[draw][i]) == w[i]
    ensures ToLower(w) == w
  {
    ToLowerIdempotent(bank.words[draw]);
    ToLower(bank.words[draw])
  }
}
