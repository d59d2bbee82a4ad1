/** `IdServer` (source/kabuki/id/include/id_server.cc): a registry of string
    keys, found by their registration index, and a counter handing out event
    numbers. Keys are C strings, modelled by their characters without the
    terminator, so `strlen(key)` is `|key|`. */
module IdServer {

  class IdServer {
    var ids: seq<string>
    var numEvents: int
    /** `MAX_KEY_LENGTH`, fixed when the server is made. */
    const maxKeyLength: nat

    constructor (maxKeyLength: nat)
      ensures ids == [] && numEvents == 0 && this.maxKeyLength == maxKeyLength
    {
      ids := [];
      numEvents := 0;
      this.maxKeyLength := maxKeyLength;
    }

    method NumEvents() returns (n: int)
      ensures n == numEvents
    {
      return numEvents;
    }

    /** Hands out the current event number and counts it, so successive calls
        on a new server return 0, 1, 2, ... */
    method RegisterEvent() returns (id: int)
      modifies this`numEvents
      ensures id == old(numEvents) && numEvents == old(numEvents) + 1
    {
      id := numEvents;
      numEvents := numEvents + 1;
    }

    /** Refuses a key longer than `maxKeyLength` with -1 and registers
        nothing; otherwise appends the key and returns its index. */
    method RegisterKey(key: string) returns (index: int)
      modifies this`ids
      ensures |key| > maxKeyLength ==> index == -1 && ids == old(ids)
      ensures |key| <= maxKeyLength ==> index == |old(ids)| && ids == old(ids) + [key]
    {
      if |key| > maxKeyLength {
        return -1;
      }
      index := |ids|;
      ids := ids + [key];
    }

    /** The first index whose key equals `key`, or -1 when none does. */
    method Find(key: string) returns (index: int)
      ensures -1 <= index < |ids|
      ensures index == -1 <==> key !in ids
      ensures index >= 0 ==> ids[index] == key && key !in ids[..index]
    {
      var i := 0;
      while i < |ids|
        invariant 0 <= i <= |ids|
        invariant key !in ids[..i]
      {
        if key == ids[i] {
          return i;
        }
        i := i + 1;
        assert ids[..i] == ids[..i - 1] + [ids[i - 1]];
      }
      assert ids[..i] == ids;
      return -1;
    }
  }

  /** Registering keys one after another: a key that fits can be found
      afterwards at the index `RegisterKey` returned, unless an equal key was
      registered earlier. */
  method RegisterThenFind(server: IdServer, key: string) returns (registered: int, found: int)
    modifies server`ids
    ensures |key| <= server.maxKeyLength && key !in old(server.ids) ==> found == registered >= 0
    ensures |key| > server.maxKeyLength && key !in old(server.ids) ==> registered == -1 && found == -1
  {
    registered := server.RegisterKey(key);
    found := server.Find(key);
  }
}
