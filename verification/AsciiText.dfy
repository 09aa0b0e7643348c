/** Character classes, as Python has them within ASCII. */
module AsciiText {
  predicate IsDigit(c: char) { '0' <= c <= '9' }

  predicate IsLower(c: char) { 'a' <= c <= 'z' }

  predicate IsUpper(c: char) { 'A' <= c <= 'Z' }

  predicate IsSpace(c: char) {
    c == ' ' || 9 as char <= c <= 13 as char || 28 as char <= c <= 31 as char
  }

  function LowerOf(c: char): char { if IsUpper(c) then c + 32 as char else c }

  function UpperOf(c: char): char { if IsLower(c) then c - 32 as char else c }
}
