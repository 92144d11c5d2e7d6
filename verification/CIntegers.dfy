/** The range of a C++ `int` of 32 bits. */
module CIntegers {

  const INT_MIN := -2147483648
  const INT_MAX := 2147483647
}
