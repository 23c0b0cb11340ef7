/** A connected user; the structure carries the hash handle that links it into the user table. */
module Users {
  import opened Bits

  const INVALID_ROOM: byte := 0

  class User {
    const id: int
    var room: byte
    var name: cstring

    // hash handle: insertion-order list, bucket chain, hash value of the key
    var prev: User?
    var next: User?
    var hhPrev: User?
    var hhNext: User?
    var hashv: word

    constructor (id: int)
      ensures this.id == id
    {
      this.id := id;
      room, name := INVALID_ROOM, [];
      prev, next, hhPrev, hhNext := null, null, null, null;
      hashv := 0;
    }
  }
}
