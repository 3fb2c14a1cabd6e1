/** Machine and operating system types shared by the models. */
module SystemTypes {
  /** One more than the largest uint32_t. */
  const U32: nat := 0x1_0000_0000

  type Byte = b: int | 0 <= b < 256

  /** The error numbers the program tells apart. */
  datatype Errno = EINTR | EAGAIN | OtherError

  function Min(a: nat, b: nat): nat {
    if a < b then a else b
  }
}
