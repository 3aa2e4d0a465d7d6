/** Pieces of text shared by the readers and printers. */
module Texts {

  // A piece, the character that ends it and what comes after.
  function Part(text: string, stop: char, rest: string): string { text + [stop] + rest }

  predicate OccursAt(s: string, mark: string, i: nat) { i + |mark| <= |s| && s[i..i + |mark|] == mark }
}
