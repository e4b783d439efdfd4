/** Code units of JavaScript strings. */
module Utf16 {

  type Unit = n: int | 0 <= n < 0x10000

  predicate IsLead(u: Unit) { 0xd800 <= u <= 0xdbff }

  predicate IsTrail(u: Unit) { 0xdc00 <= u <= 0xdfff }
}
