/** Facts about sequences of characters that several modules need. */
module TextFacts {
  lemma Assoc(a: string, b: string, c: string)
    ensures a + b + c == a + (b + c)
  {
  }

  lemma HeadTail(c: char, s: string)
    ensures ([c] + s)[0] == c && ([c] + s)[1..] == s
  {
  }
}
