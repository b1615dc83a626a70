/** The debugger's packets against an ideal device, and the transfers built on them. */
module UartDebug {
  import opened Bytes
  import opened HexFiles
  import opened HexText
  import opened Results
  import opened Words

  const CMD_HALT: Byte := 0x00
  const CMD_RESUME: Byte := 0x01
  const CMD_READ_PROG: Byte := 0x02
  const CMD_WRITE_PROG: Byte := 0x03
  const CMD_GET_STATE: Byte := 0x07
  const STATUS_OK: Byte := 0x00
  const STATUS_ERROR_ARGS: Byte := 0xFE
  const STATUS_ERROR_CMD: Byte := 0xFD

  /** The transfers move at most this many bytes in a packet. */
  const CHUNK := 250

  // ----- an ideal byte memory -----

  type Memory = map<nat, Byte>

  function Peek(m: Memory, a: nat): Byte {
    if a in m then m[a] else 0
  }

  function Range(m: Memory, a: nat, n: nat): (b: seq<Byte>)
    ensures |b| == n
  {
    seq<Byte>(n, k requires 0 <= k < n => Peek(m, a + k))
  }

  function Poke(m: Memory, a: nat, b: seq<Byte>): Memory
    decreases |b|
  {
    if b == [] then m else Poke(m[a := b[0]], a + 1, b[1..])
  }

  lemma {:induction false} Poked(m: Memory, a: nat, b: seq<Byte>, k: nat)
    ensures Peek(Poke(m, a, b), k) == if a <= k < a + |b| then b[k - a] else Peek(m, k)
    decreases |b|
  {
    if b != [] {
      Poked(m[a := b[0]], a + 1, b[1..], k);
    }
  }

  lemma {:induction false} PokeAppend(m: Memory, a: nat, b: seq<Byte>, c: seq<Byte>)
    ensures Poke(m, a, b + c) == Poke(Poke(m, a, b), a + |b|, c)
    decreases |b|
  {
    if b == [] {
      assert b + c == c;
    } else {
      assert (b + c)[1..] == b[1..] + c;
      PokeAppend(m[a := b[0]], a + 1, b[1..], c);
    }
  }

  // ----- packets -----

  /** A 32-bit address, most significant byte first. */
  function BigEndian(a: Word): (b: seq<Byte>)
    ensures |b| == 4
  {
    var l := BytesOf(a);
    [l[3], l[2], l[1], l[0]]
  }

  function AddressOf(b: seq<Byte>): Word
    requires |b| == 4
  {
    WordOf([b[3], b[2], b[1], b[0]])
  }

  lemma AddressSent(a: Word)
    ensures AddressOf(BigEndian(a)) == a
  {
    WordOfBytes(a);
    hide WordOf;
    var l := BytesOf(a);
    assert [l[0], l[1], l[2], l[3]] == l;
  }

  function Packet(head: Byte, id: Byte, data: seq<Byte>): (p: seq<Byte>)
    requires |data| <= 255
  {
    [head, id, |data|] + data
  }

  /** The processor and its program memory behind the serial line. */
  datatype Target = Target(prog: Memory, halted: bool)

  /** What the device does with a command, its status and its answer. */
  function Serve(t: Target, cmd: Byte, data: seq<Byte>): (r: (Target, Byte, seq<Byte>))
    ensures |r.2| <= 255
  {
    if cmd == CMD_HALT then (t.(halted := true), STATUS_OK, [])
    else if cmd == CMD_RESUME then (t.(halted := false), STATUS_OK, [])
    else if cmd == CMD_GET_STATE then (t, STATUS_OK, [if t.halted then 1 else 0])
    else if cmd == CMD_READ_PROG then
      if |data| == 5 then (t, STATUS_OK, Range(t.prog, AddressOf(data[..4]), data[4])) else (t, STATUS_ERROR_ARGS, [])
    else if cmd == CMD_WRITE_PROG then
      if |data| >= 5 then (t.(prog := Poke(t.prog, AddressOf(data[..4]), data[4..])), STATUS_OK, [])
      else (t, STATUS_ERROR_ARGS, [])
    else (t, STATUS_ERROR_CMD, [])
  }

  class Device {
    var target: Target

    constructor (prog: Memory, halted: bool)
      ensures target == Target(prog, halted)
    {
      target := Target(prog, halted);
    }

    /** Takes a request packet off the line and puts the response packet on it. */
    method Exchange(request: seq<Byte>) returns (response: seq<Byte>)
      requires |request| >= 3 && request[2] == |request| - 3
      modifies this
      ensures var served := Serve(old(target), request[0], request[3..]);
        target == served.0 && response == Packet(served.1, request[1], served.2)
    {
      var (t, status, data) := Serve(target, request[0], request[3..]);
      target := t;
      response := Packet(status, request[1], data);
    }
  }

  class UARTDebugger {
    const device: Device
    var nextId: Byte

    constructor (device: Device)
      ensures this.device == device && nextId == 1
    {
      this.device, nextId := device, 1;
    }

    /**
     Sends a command and receives its status and answer; the packet number is spent even if the
     packet is too long.
     */
    method ExecuteCommand(cmd: Byte, data: seq<Byte>) returns (r: Result<(Byte, seq<Byte>)>)
      modifies this, device
      ensures nextId == (old(nextId) + 1) % 0x100
      ensures |data| > 255 ==> r == Err(PacketTooLong) && device.target == old(device.target)
      ensures |data| <= 255 ==>
        var served := Serve(old(device.target), cmd, data);
        r == Ok((served.1, served.2)) && device.target == served.0
    {
      var packetId := nextId;
      nextId := (nextId + 1) % 0x100;
      if |data| > 255 {
        return Err(PacketTooLong);
      }
      var packet := Packet(cmd, packetId, data);
      assert packet[3..] == data;
      var response := device.Exchange(packet);
      var length := response[2];
      r := Ok((response[0], response[3..3 + length]));
      assert response[3..3 + length] == Serve(old(device.target), cmd, data).2;
    }

    method Halt() returns (ok: bool)
      modifies this, device
      ensures ok && device.target == old(device.target).(halted := true)
    {
      var r := ExecuteCommand(CMD_HALT, []);
      ok := r.value.0 == STATUS_OK;
    }

    method Resume() returns (ok: bool)
      modifies this, device
      ensures ok && device.target == old(device.target).(halted := false)
    {
      var r := ExecuteCommand(CMD_RESUME, []);
      ok := r.value.0 == STATUS_OK;
    }

    method GetState() returns (halted: Option<bool>)
      modifies this, device
      ensures halted == Some(device.target.halted) && device.target == old(device.target)
    {
      var r := ExecuteCommand(CMD_GET_STATE, []);
      if r.value.0 != STATUS_OK || |r.value.1| != 1 {
        return None;
      }
      halted := Some(r.value.1[0] != 0);
    }

    method ReadProg(address: int, size: int) returns (r: Result<Option<seq<Byte>>>)
      modifies this, device
      ensures device.target == old(device.target)
      ensures r == if size < 1 || size > 255 then Err(InvalidLength)
                   else if address < 0 || address >= MODULUS then Err(AddressRange)
                   else Ok(Some(Range(device.target.prog, address, size)))
    {
      if size < 1 || size > 255 {
        return Err(InvalidLength);
      }
      if address < 0 || address >= MODULUS {
        return Err(AddressRange);
      }
      var request := BigEndian(address) + [size];
      AddressSent(address);
      assert request[..4] == BigEndian(address);
      var answer := ExecuteCommand(CMD_READ_PROG, request);
      r := Ok(if answer.value.0 == STATUS_OK then Some(answer.value.1) else None);
    }

    /** At most 251 bytes fit in a packet beside the address. */
    method WriteProg(address: int, dataBytes: seq<Byte>) returns (r: Result<bool>)
      modifies this, device
      ensures r == if |dataBytes| < 1 || |dataBytes| > 255 then Err(InvalidLength)
                   else if address < 0 || address >= MODULUS then Err(AddressRange)
                   else if |dataBytes| > 251 then Err(PacketTooLong)
                   else Ok(true)
      ensures device.target == if !r.Ok? then old(device.target)
                               else old(device.target).(prog := Poke(old(device.target).prog, address, dataBytes))
    {
      if |dataBytes| < 1 || |dataBytes| > 255 {
        return Err(InvalidLength);
      }
      if address < 0 || address >= MODULUS {
        return Err(AddressRange);
      }
      var request := BigEndian(address) + dataBytes;
      AddressSent(address);
      assert request[..4] == BigEndian(address) && request[4..] == dataBytes;
      var answer := ExecuteCommand(CMD_WRITE_PROG, request);
      if answer.Err? {
        return Err(answer.error);
      }
      r := Ok(answer.value.0 == STATUS_OK);
    }

    /** Parses a hex file and writes it to program memory in chunks; `sent` counts the bytes written. */
    method UploadFirmware(text: string, startAddr: int) returns (r: Result<bool>, ghost sent: nat)
      modifies this, device
      ensures ParseText(text).Err? ==> r == Err(ParseText(text).error) && device.target == old(device.target)
      ensures ParseText(text) == Ok([]) ==> r == Ok(false) && device.target == old(device.target)
      ensures ParseText(text).Ok? && ParseText(text).value != [] ==>
        var data := ParseText(text).value;
        && sent <= |data| && (sent > 0 ==> startAddr >= 0)
        && r == (if ChunksFit(startAddr, |data|) then Ok(true) else Err(AddressRange))
        && (r.Ok? ==> sent == |data|)
        && device.target.halted
        && device.target.prog == if sent == 0 then old(device.target.prog)
                                  else Poke(old(device.target.prog), startAddr, data[..sent])
    {
      hide ParseText, Poke;
      sent := 0;
      var parsed := ParseHexFile(text);
      if parsed.Err? {
        return Err(parsed.error), 0;
      }
      var data := parsed.value;
      if data == [] {
        return Ok(false), 0;
      }
      var halted := GetState();
      if halted == Some(false) {
        var ok := Halt();
      }
      ghost var prog := device.target.prog;
      var i := 0;
      while i < |data|
        invariant 0 <= i && sent == (if i < |data| then i else |data|)
        invariant i == 0 || (startAddr >= 0 && startAddr + i - CHUNK < MODULUS)
        invariant i % CHUNK == 0 && i < |data| + CHUNK
        invariant device.target.halted
        invariant device.target.prog == if sent == 0 then prog else Poke(prog, startAddr, data[..sent])
      {
        var end := if |data| < i + CHUNK then |data| else i + CHUNK;
        var chunk := data[i..end];
        var ok := WriteProg(startAddr + i, chunk);
        if ok.Err? {
          ChunkUnfit(startAddr, |data|, i);
          return Err(ok.error), sent;
        }
        PokeChunk(prog, startAddr, data, i, end);
        sent := end;
        i := i + CHUNK;
      }
      assert data[..|data|] == data;
      r := Ok(true);
    }

    /** Reads program memory in chunks and writes it as a hex file; the core is left as it was. */
    method DumpFirmware(startAddr: int, length: int) returns (r: Result<string>)
      modifies this, device
      ensures device.target.prog == old(device.target.prog)
      ensures r.Ok? ==> device.target == old(device.target)
      ensures r == if length > 0 && !ChunksFit(startAddr, length) then Err(AddressRange)
                   else Ok(DumpText(if length > 0 then Range(device.target.prog, startAddr, length) else [],
                                    startAddr, 4))
    {
      hide DumpText, Range;
      var allData: seq<Byte> := [];
      var remaining := length;
      var currentAddr := startAddr;
      var halted := GetState();
      if halted == Some(false) {
        var ok := Halt();
      }
      ghost var prog, lastChunk := device.target.prog, 0;
      RangeNone(prog, if startAddr >= 0 then startAddr else 0);
      while remaining > 0
        invariant length > 0 ==> 0 - CHUNK < remaining <= length && currentAddr == startAddr + (length - remaining)
        invariant length <= 0 ==> remaining == length && allData == []
        invariant remaining < length ==> startAddr >= 0 && startAddr + lastChunk < MODULUS && lastChunk % CHUNK == 0
        invariant remaining < length ==> lastChunk < length - remaining <= lastChunk + CHUNK
        invariant length > 0 ==> (remaining > 0 ==> (length - remaining) % CHUNK == 0) && remaining >= 0
        invariant length > 0 && startAddr >= 0 ==> allData == Range(prog, startAddr, length - remaining)
        invariant device.target == Target(prog, true)
      {
        var chunkSize := if remaining < CHUNK then remaining else CHUNK;
        var data := ReadProg(currentAddr, chunkSize);
        if data.Err? {
          ChunkUnfit(startAddr, length, length - remaining);
          return Err(data.error);
        }
        RangeAppend(prog, startAddr, length - remaining, chunkSize);
        lastChunk := length - remaining;
        allData := allData + data.value.value;
        remaining := remaining - chunkSize;
        currentAddr := currentAddr + chunkSize;
      }
      if length > 0 {
        assert (length - 1) / CHUNK * CHUNK == lastChunk;
      }
      if halted == Some(false) {
        var ok := Resume();
      }
      var text := WriteHexFile(allData, startAddr, 4);
      r := text;
    }
  }

  /** Every chunk of `n` bytes from `start` begins at a 32-bit address. */
  predicate ChunksFit(start: int, n: int) {
    start >= 0 && start + (n - 1) / CHUNK * CHUNK < MODULUS
  }

  lemma ChunkUnfit(start: int, n: int, i: nat)
    requires i < n && i % CHUNK == 0 && (start + i < 0 || start + i >= MODULUS)
    ensures !ChunksFit(start, n)
  {
    assert i <= (n - 1) / CHUNK * CHUNK;
  }

  lemma PokeChunk(m: Memory, start: int, data: seq<Byte>, i: nat, end: nat)
    requires start >= 0 && i < end <= |data|
    ensures Poke(if i == 0 then m else Poke(m, start, data[..i]), start + i, data[i..end])
        == Poke(m, start, data[..end])
  {
    Slices(data, i, end);
    PokeAppend(m, start, data[..i], data[i..end]);
    if i == 0 {
      assert data[..i] == [];
    }
  }

  lemma Slices(data: seq<Byte>, i: nat, end: nat)
    requires i <= end <= |data|
    ensures data[..i] + data[i..end] == data[..end]
  {}

  lemma RangeNone(m: Memory, a: nat)
    ensures Range(m, a, 0) == []
  {}

  lemma RangeAppend(m: Memory, a: nat, i: nat, n: nat)
    ensures Range(m, a, i + n) == Range(m, a, i) + Range(m, a + i, n)
  {}

  // ----- what the transfers achieve -----

  /** Memory holds exactly the bytes that were written, and is otherwise unchanged. */
  lemma Uploaded(m: Memory, a: nat, b: seq<Byte>)
    ensures Range(Poke(m, a, b), a, |b|) == b
    ensures forall k: nat :: k < a || k >= a + |b| ==> Peek(Poke(m, a, b), k) == Peek(m, k)
  {
    forall k: nat ensures Peek(Poke(m, a, b), k) == if a <= k < a + |b| then b[k - a] else Peek(m, k) {
      Poked(m, a, b, k);
    }
  }

  /** Uploading a file's data and dumping the same range gives a file with the same data. */
  lemma UploadDump(m: Memory, a: nat, b: seq<Byte>)
    ensures ParseText(DumpText(Range(Poke(m, a, b), a, |b|), a, 4)) == Ok(b)
  {
    hide ParseText, DumpText;
    Uploaded(m, a, b);
    DumpRoundTrip(b, a, 4);
  }

  /** Uploading the compiler's hex output to address 0 puts the program's words into program memory. */
  lemma ProgramUploaded(m: Memory, p: seq<Word>)
    ensures ParseText(ProgramText(p)) == Ok(ProgramBytes(p))
    ensures WordsOf(Range(Poke(m, 0, ProgramBytes(p)), 0, 4 * |p|)) == p
  {
    hide ParseText, ProgramText, Poke, Range, WordsOf;
    ProgramRead(p);
    Uploaded(m, 0, ProgramBytes(p));
    WordsOfProgram(p);
  }

  // ----- the tool used twice -----

  /** Uploads a file, dumps what was uploaded, and reads the dump: the file's data come back. */
  method UploadThenDump(debugger: UARTDebugger, text: string, startAddr: int) returns (r: Result<seq<Byte>>)
    modifies debugger, debugger.device
    ensures match ParseText(text)
            case Err(e) => r == Err(e)
            case Ok(data) => r == if data == [] || ChunksFit(startAddr, |data|) then Ok(data) else Err(AddressRange)
  {
    hide ParseText, DumpText, Range, Poke, ChunksFit;
    var data := ParseHexFile(text);
    if data.Err? {
      return data;
    }
    ghost var before := debugger.device.target.prog;
    var uploaded, _ := debugger.UploadFirmware(text, startAddr);
    if uploaded.Err? {
      return Err(uploaded.error);
    }
    var dumped := debugger.DumpFirmware(startAddr, |data.value|);
    match dumped {
      case Ok(again) => r := ParseHexFile(again);
      case Err(e) => r := Err(e);
    }
    if data.value != [] {
      UploadDump(before, startAddr, data.value);
      assert data.value[..|data.value|] == data.value;
    } else {
      DumpRoundTrip([], startAddr, 4);
    }
  }

  /** Exports a compiled program and uploads it to address 0: its words are then in program memory. */
  method Install(debugger: UARTDebugger, program: seq<Word>, depth: nat) returns (r: Result<bool>)
    modifies debugger, debugger.device
    ensures r.Ok? <==> |program| <= depth && (program == [] || ChunksFit(0, 4 * |program|))
    ensures r.Ok? ==> WordsOf(Range(debugger.device.target.prog, 0, 4 * |program|)) == program
  {
    hide ParseText, ProgramText, Range, Poke, ChunksFit, WordsOf, ProgramBytes;
    var text := SaveHex(program, depth);
    if text.Err? {
      return Err(text.error);
    }
    ghost var before := debugger.device.target.prog;
    ProgramUploaded(before, program);
    ghost var sent;
    r, sent := debugger.UploadFirmware(text.value, 0);
    ghost var data := ProgramBytes(program);
    if program == [] {
      assert data == [];
    } else {
      assert data[..|data|] == data;
    }
  }
}
