/** The white space of JavaScript texts: what trim removes and parseInt skips (section 22.1.3.32 of ECMA-262). */
module WhiteSpace {
  predicate IsSpaceUnit(c: int) {
    9 <= c <= 13 || c == 0x20 || c == 0xA0 || c == 0x1680 || 0x2000 <= c <= 0x200A
    || c == 0x2028 || c == 0x2029 || c == 0x202F || c == 0x205F || c == 0x3000 || c == 0xFEFF
  }

  predicate IsSpace(c: char) {
    IsSpaceUnit(c as int)
  }
}
