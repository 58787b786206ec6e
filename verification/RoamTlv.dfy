/**
 Roam commands built as TLVs: roam-scan-offload mode and roam filter
 (`wmi_get_rso_buf_len`, `wmi_fill_rso_tlvs`, `send_roam_scan_offload_mode_cmd_tlv`,
 `send_roam_scan_filter_cmd_tlv`).
 */
module RoamTlv {
  import opened Basics
  import opened WmiTlv

  datatype Akm =
    | AuthNone | AuthOpen | FtRsna | FtRsnaPsk | FtRsnaSae | FtSuiteB | FtFilsSha256 | FtFilsSha384
    | OtherAkm(code: nat)

  /** The fixed structures of the mode command. */
  datatype Kind = ModeFixed | StartScan | Offload | Sec11i | Sec11r | SecEse | AssocIes | Fils | Sae

  /** Bits of the roam scan mode; the mode NONE has none. */
  datatype ModeBit = RoamOffload | OtherMode(bit: nat)

  /** A roam request; `image` gives the bytes of each structure that is built from it. */
  datatype Request = Request(
    isRsoStop: bool,
    offloadEnabled: bool,
    akm: Akm,
    isEseAssoc: bool,
    mdiePresent: bool,
    is11rAssoc: bool,
    assocIe: Image,
    addFilsTlv: bool,
    isSaeSamePmk: bool,
    mode: set<ModeBit>,
    image: Kind -> Image)

  /** The firmware interface: width of a header, and of each structure. */
  datatype Abi = Abi(h: nat, size: Kind -> nat)

  /** Width of an int, and of a TLV header, which is one 32-bit word. */
  const INT_SIZE := 4

  predicate Fits(abi: Abi, req: Request) {
    abi.h == INT_SIZE && forall k :: |req.image(k)| == abi.size(k)
  }

  predicate IsFtAkm(req: Request) {
    match req.akm
    case FtRsna | FtRsnaPsk | FtRsnaSae | FtSuiteB | FtFilsSha256 | FtFilsSha384 => true
    case AuthOpen => req.mdiePresent && req.is11rAssoc
    case _ => false
  }

  // ----- what the command should hold -----

  predicate Bare(req: Request) {
    req.isRsoStop || !req.offloadEnabled
  }

  /** The one security section that carries parameters, if any. */
  function Chosen(req: Request): Option<Kind> {
    if req.akm.AuthNone? then None
    else if req.isEseAssoc then Some(SecEse)
    else if IsFtAkm(req) then Some(Sec11r)
    else if req.akm.AuthOpen? then None
    else Some(Sec11i)
  }

  function Struc(image: Image): Tlv {
    Tlv(ArrayStruc, image)
  }

  function Section(req: Request, k: Kind): Tlv {
    Struc(if Chosen(req) == Some(k) then req.image(k) else [])
  }

  /** The TLVs behind the fixed parameters; `pad` fills the association IEs up to four bytes. */
  function Layout(req: Request, pad: Image): seq<Tlv> {
    if Bare(req) then
      [Struc([]), Struc([]), Struc([]), Struc([]), Struc([]), Tlv(ArrayByte, [])]
    else
      Front(req) + Back(req, pad)
  }

  function Front(req: Request): seq<Tlv> {
    [Struc(req.image(Offload)),
     Section(req, Sec11i), Section(req, Sec11r), Section(req, SecEse),
     Struc(req.image(AssocIes))]
  }

  function Back(req: Request, pad: Image): seq<Tlv> {
    [Tlv(ArrayByte, req.assocIe + pad), FilsTlv(req)] + SaeTlvs(req)
  }

  function FilsTlv(req: Request): Tlv {
    Struc(if req.addFilsTlv then req.image(Fils) else [])
  }

  function SaeTlvs(req: Request): seq<Tlv> {
    if req.isSaeSamePmk then [Struc(req.image(Sae))] else []
  }

  predicate Pads(req: Request, pad: Image) {
    |req.assocIe| + |pad| == Roundup4(|req.assocIe|)
  }

  /** Which of the three security structures a request calls for, by its flags and its AKM value. */
  predicate CallsForEse(req: Request) {
    req.isEseAssoc && req.akm != AuthNone
  }

  predicate CallsFor11r(req: Request) {
    && !req.isEseAssoc
    && (req.akm in {FtRsna, FtRsnaPsk, FtRsnaSae, FtSuiteB, FtFilsSha256, FtFilsSha384}
        || (req.akm == AuthOpen && req.mdiePresent && req.is11rAssoc))
  }

  predicate CallsFor11i(req: Request) {
    !req.isEseAssoc && req.akm.OtherAkm?
  }

  /** The sections of a full command, one by one: each security section holds its structure exactly when
      the request calls for it, FILS and SAE parameters are there exactly when asked for, and the
      association IEs are filled up to whole words. */
  lemma SectionsOfRequest(req: Request, pad: Image)
    requires !req.isRsoStop && req.offloadEnabled && Pads(req, pad)
    ensures var ts := Layout(req, pad);
            && |ts| == (if req.isSaeSamePmk then 8 else 7)
            && ts[0] == Tlv(ArrayStruc, req.image(Offload))
            && ts[1] == Tlv(ArrayStruc, if CallsFor11i(req) then req.image(Sec11i) else [])
            && ts[2] == Tlv(ArrayStruc, if CallsFor11r(req) then req.image(Sec11r) else [])
            && ts[3] == Tlv(ArrayStruc, if CallsForEse(req) then req.image(SecEse) else [])
            && ts[4] == Tlv(ArrayStruc, req.image(AssocIes))
            && ts[5].tag == ArrayByte && req.assocIe <= ts[5].payload
            && |ts[5].payload| % 4 == 0 && |ts[5].payload| < |req.assocIe| + 4
            && ts[6] == Tlv(ArrayStruc, if req.addFilsTlv then req.image(Fils) else [])
            && (req.isSaeSamePmk ==> ts[7] == Tlv(ArrayStruc, req.image(Sae)))
  {
    ChosenIs(req);
  }

  lemma ChosenIs(req: Request)
    ensures Chosen(req) == Some(SecEse) <==> CallsForEse(req)
    ensures Chosen(req) == Some(Sec11r) <==> CallsFor11r(req)
    ensures Chosen(req) == Some(Sec11i) <==> CallsFor11i(req)
    ensures Chosen(req).Some? ==> Chosen(req).value in {SecEse, Sec11r, Sec11i}
  {
  }

  /** A stop, or a request with offload disabled, has six empty arrays, the last one of bytes. */
  lemma SectionsOfStop(req: Request, pad: Image)
    requires req.isRsoStop || !req.offloadEnabled
    ensures var ts := Layout(req, pad);
            && |ts| == 6 && (forall i :: 0 <= i < 6 ==> ts[i].payload == [])
            && (forall i :: 0 <= i < 5 ==> ts[i].tag == ArrayStruc) && ts[5].tag == ArrayByte
  {
  }

  /** The length by the request: a header for each section, and the structures it calls for. */
  lemma RoomOfRequest(abi: Abi, req: Request)
    ensures Room(abi, req) ==
            if req.isRsoStop || !req.offloadEnabled then 6 * abi.h
            else
              7 * abi.h + abi.size(Offload) + abi.size(AssocIes) + Roundup4(|req.assocIe|)
              + (if CallsForEse(req) then abi.size(SecEse) else 0)
              + (if CallsFor11r(req) then abi.size(Sec11r) else 0)
              + (if CallsFor11i(req) then abi.size(Sec11i) else 0)
              + (if req.addFilsTlv then abi.size(Fils) else 0)
              + if req.isSaeSamePmk then abi.h + abi.size(Sae) else 0
  {
    ChosenIs(req);
  }

  /** The command is the mode structure alone exactly when the request has no mode bit but, at most, the
      roam-offload one, and that one is set, by the request or because the sections would be filled. */
  lemma BareModeIff(req: Request)
    ensures Mode(req) == {RoamOffload} <==>
              && (forall b :: b in req.mode ==> b == RoamOffload)
              && (RoamOffload in req.mode || (!req.isRsoStop && req.offloadEnabled))
  {
  }

  /** At most one of the 11i, 11r and ESE sections is non-empty. */
  lemma OneSection(req: Request, pad: Image, i: nat, j: nat)
    requires !Bare(req) && 1 <= i < j <= 3
    ensures Layout(req, pad)[i].payload == [] || Layout(req, pad)[j].payload == []
  {
  }

  /** Bytes taken by the chosen security section. */
  function ChosenSize(abi: Abi, req: Request): nat {
    match Chosen(req)
    case None => 0
    case Some(k) => abi.size(k)
  }

  function Room(abi: Abi, req: Request): nat {
    if Bare(req) then 6 * abi.h
    else 5 * abi.h + abi.size(Offload) + ChosenSize(abi, req) + abi.size(AssocIes) + BackRoom(abi, req)
  }

  function BackRoom(abi: Abi, req: Request): nat {
    2 * abi.h + Roundup4(|req.assocIe|) + FilsSize(abi, req) + SaeRoom(abi, req)
  }

  function FilsSize(abi: Abi, req: Request): nat {
    if req.addFilsTlv then abi.size(Fils) else 0
  }

  function SaeRoom(abi: Abi, req: Request): nat {
    if req.isSaeSamePmk then abi.h + abi.size(Sae) else 0
  }

  /** The room is the encoded length of the sections. */
  lemma RoomIsExact(abi: Abi, req: Request, pad: Image)
    requires Fits(abi, req) && Pads(req, pad)
    ensures |Encode(abi.h, Layout(req, pad))| == Room(abi, req)
  {
    if Bare(req) {
      EncodeLength(abi.h, Layout(req, pad));
      TotalOfEmpty(Layout(req, pad), 6);
    } else {
      EncodeAppend(abi.h, Front(req), Back(req, pad));
      EncodeLength(abi.h, Front(req));
      EncodeLength(abi.h, Back(req, pad));
      BackLength(abi, req, pad);
      FrontLength(abi, req);
    }
  }

  lemma FrontLength(abi: Abi, req: Request)
    requires Fits(abi, req)
    ensures Total(Front(req), 5) == abi.size(Offload) + ChosenSize(abi, req) + abi.size(AssocIes)
  {
    SectionsLength(abi, req);
    var ts := Front(req);
    assert Total(ts, 1) == abi.size(Offload);
    assert Total(ts, 2) == Total(ts, 1) + |Section(req, Sec11i).payload|;
    assert Total(ts, 3) == Total(ts, 2) + |Section(req, Sec11r).payload|;
    assert Total(ts, 4) == Total(ts, 3) + |Section(req, SecEse).payload|;
  }

  lemma BackLength(abi: Abi, req: Request, pad: Image)
    requires Fits(abi, req) && Pads(req, pad)
    ensures |Back(req, pad)| * abi.h + Total(Back(req, pad), |Back(req, pad)|) == BackRoom(abi, req)
  {
    var ts := Back(req, pad);
    assert Total(ts, 1) == Roundup4(|req.assocIe|);
    assert Total(ts, 2) == Total(ts, 1) + FilsSize(abi, req);
  }

  lemma SectionsLength(abi: Abi, req: Request)
    requires Fits(abi, req)
    ensures |Section(req, Sec11i).payload| + |Section(req, Sec11r).payload| + |Section(req, SecEse).payload|
         == ChosenSize(abi, req)
  {
  }

  function Mode(req: Request): set<ModeBit> {
    if Bare(req) then req.mode else req.mode + {RoamOffload}
  }

  /** The length the code computes before it allocates the buffer, and the mode as it leaves it. */
  method GetRsoBufLen(abi: Abi, req: Request) returns (len: nat, mode: set<ModeBit>)
    requires Fits(abi, req)
    ensures len == Room(abi, req) && mode == Mode(req)
    ensures mode == if req.isRsoStop || !req.offloadEnabled then req.mode else req.mode + {RoamOffload}
  {
    len, mode := 2 * abi.h, req.mode;
    if req.isRsoStop || !req.offloadEnabled {
      len := len + 4 * abi.h;
      return;
    }
    len := len + abi.size(Offload);
    len := len + 2 * abi.h;
    if (!req.akm.AuthOpen? || req.isEseAssoc || IsFtAkm(req)) && !req.akm.AuthNone? {
      if req.isEseAssoc {
        len := len + abi.size(SecEse);
      } else if IsFtAkm(req) {
        len := len + abi.size(Sec11r);
      } else {
        len := len + abi.size(Sec11i);
      }
    }
    len := len + (abi.size(AssocIes) + 2 * abi.h + Roundup4(|req.assocIe|));
    len := len + abi.h;
    if req.addFilsTlv {
      len := len + abi.size(Fils);
    }
    if req.isSaeSamePmk {
      len := len + (abi.h + abi.size(Sae));
    }
    mode := mode + {RoamOffload};
  }

  // ----- filling the buffer -----

  method PutThreeHeaders(a: Tag, b: Tag, c: Tag, len: int, buf: CmdBuf)
    requires buf.Valid() && len == 0 && buf.pos + 3 * buf.h <= buf.data.Length
    modifies buf`pos, buf`written, buf.data
    ensures buf.Valid() && buf.pos == old(buf.pos) + 3 * buf.h
    ensures buf.written == old(buf.written) + [Tlv(a, []), Tlv(b, []), Tlv(c, [])]
  {
    buf.PutHeaderOnly(a, len);
    buf.PutHeaderOnly(b, len);
    buf.PutHeaderOnly(c, len);
  }

  /** For a stop, or with offload disabled: headers only. The length they record is that of an int
      less a header. */
  method FillBare(abi: Abi, buf: CmdBuf)
    requires abi.h == INT_SIZE && buf.h == abi.h
    requires buf.Valid() && buf.written == [] && buf.pos + 6 * buf.h <= buf.data.Length
    modifies buf`pos, buf`written, buf.data
    ensures buf.Valid() && buf.pos == old(buf.pos) + 6 * buf.h
    ensures buf.written == [Struc([]), Struc([]), Struc([]), Struc([]), Struc([]), Tlv(ArrayByte, [])]
  {
    PutThreeHeaders(ArrayStruc, ArrayStruc, ArrayStruc, INT_SIZE - abi.h, buf);
    PutThreeHeaders(ArrayStruc, ArrayStruc, ArrayByte, INT_SIZE - abi.h, buf);
  }

  /** The 11i, 11r and ESE sections, in this order. */
  method FillSecurity(abi: Abi, req: Request, buf: CmdBuf)
    requires Fits(abi, req) && buf.Valid() && buf.h == abi.h
    requires buf.pos + 3 * abi.h + ChosenSize(abi, req) <= buf.data.Length
    modifies buf`pos, buf`written, buf.data
    ensures buf.Valid() && buf.pos == old(buf.pos) + 3 * abi.h + ChosenSize(abi, req)
    ensures buf.written == old(buf.written) + [Section(req, Sec11i), Section(req, Sec11r), Section(req, SecEse)]
  {
    if (!req.akm.AuthOpen? || req.isEseAssoc || IsFtAkm(req)) && !req.akm.AuthNone? {
      if req.isEseAssoc {
        buf.PutThree(Struc([]), Struc([]), Struc(req.image(SecEse)));
      } else if IsFtAkm(req) {
        buf.PutThree(Struc([]), Struc(req.image(Sec11r)), Struc([]));
      } else {
        buf.PutThree(Struc(req.image(Sec11i)), Struc([]), Struc([]));
      }
    } else {
      buf.PutThree(Struc([]), Struc([]), Struc([]));
    }
  }

  method AddFilsTlv(abi: Abi, req: Request, buf: CmdBuf)
    requires Fits(abi, req) && buf.Valid() && buf.h == abi.h
    requires buf.pos + abi.h + FilsSize(abi, req) <= buf.data.Length
    modifies buf`pos, buf`written, buf.data
    ensures buf.Valid() && buf.pos == old(buf.pos) + abi.h + FilsSize(abi, req)
    ensures buf.written == old(buf.written) + [FilsTlv(req)]
  {
    if !req.addFilsTlv {
      buf.PutTlv(ArrayStruc, []);
      return;
    }
    buf.PutTlv(ArrayStruc, req.image(Fils));
  }

  method FillSaeSinglePmkTlv(abi: Abi, req: Request, buf: CmdBuf)
    requires Fits(abi, req) && buf.Valid() && buf.h == abi.h
    requires buf.pos + SaeRoom(abi, req) <= buf.data.Length
    modifies buf`pos, buf`written, buf.data
    ensures buf.Valid() && buf.pos == old(buf.pos) + SaeRoom(abi, req)
    ensures buf.written == old(buf.written) + SaeTlvs(req)
  {
    if !req.isSaeSamePmk {
      return;
    }
    buf.PutTlv(ArrayStruc, req.image(Sae));
  }

  /** Offload parameters, security sections and the structure in front of the association IEs. */
  method FillFront(abi: Abi, req: Request, buf: CmdBuf)
    requires Fits(abi, req) && buf.Valid() && buf.h == abi.h && buf.written == []
    requires buf.pos + 5 * abi.h + abi.size(Offload) + ChosenSize(abi, req) + abi.size(AssocIes) <= buf.data.Length
    modifies buf`pos, buf`written, buf.data
    ensures buf.Valid()
    ensures buf.pos == old(buf.pos) + 5 * abi.h + abi.size(Offload) + ChosenSize(abi, req) + abi.size(AssocIes)
    ensures buf.written == Front(req)
  {
    buf.PutTlv(ArrayStruc, req.image(Offload));
    FillSecurity(abi, req, buf);
    buf.PutTlv(ArrayStruc, req.image(AssocIes));
  }

  /** Association IEs, FILS and SAE sections. */
  method FillBack(abi: Abi, req: Request, buf: CmdBuf) returns (ghost pad: Image)
    requires Fits(abi, req) && buf.Valid() && buf.h == abi.h
    requires buf.pos + BackRoom(abi, req) <= buf.data.Length
    modifies buf`pos, buf`written, buf.data
    ensures Pads(req, pad) && buf.Valid() && buf.written == old(buf.written) + Back(req, pad)
    ensures buf.pos == old(buf.pos) + BackRoom(abi, req)
  {
    ghost var before := buf.written;
    pad := buf.PutPadded(ArrayByte, req.assocIe, Roundup4(|req.assocIe|));
    assert buf.written == before + [Tlv(ArrayByte, req.assocIe + pad)];
    AddFilsTlv(abi, req, buf);
    assert buf.written == before + [Tlv(ArrayByte, req.assocIe + pad), FilsTlv(req)];
    FillSaeSinglePmkTlv(abi, req, buf);
  }

  /** Fill the TLVs: with the computed room behind the position, exactly that room is used. */
  method FillRsoTlvs(abi: Abi, req: Request, buf: CmdBuf) returns (ghost pad: Image)
    requires Fits(abi, req) && buf.Valid() && buf.h == abi.h && buf.written == []
    requires buf.pos + Room(abi, req) <= buf.data.Length
    modifies buf`pos, buf`written, buf.data
    ensures Pads(req, pad) && buf.Valid() && buf.written == Layout(req, pad)
    ensures buf.pos == old(buf.pos) + Room(abi, req)
  {
    if req.isRsoStop || !req.offloadEnabled {
      FillBare(abi, buf);
      pad := seq(Roundup4(|req.assocIe|) - |req.assocIe|, _ => HdrRest);
      return;
    }
    FillFront(abi, req, buf);
    pad := FillBack(abi, req, buf);
  }

  /** The command as it goes to the firmware: one fixed structure alone when the mode is nothing but
      roam offload, otherwise fixed parameters and TLVs. */
  ghost predicate ModeCommand(abi: Abi, req: Request, cmd: Image)
    requires abi.h > 0
  {
    if Mode(req) == {RoamOffload} then cmd == req.image(ModeFixed)
    else
      exists pad :: Pads(req, pad) &&
        cmd == req.image(ModeFixed) + req.image(StartScan) + Encode(abi.h, Layout(req, pad))
  }

  /** Build the mode command in memory that holds `init(len)` when `len` bytes are allocated. */
  method SendRoamScanOffloadMode(abi: Abi, req: Request, allocOk: bool, init: nat -> Image)
    returns (r: Option<Image>, mode: set<ModeBit>)
    requires Fits(abi, req) && forall len :: |init(len)| == len
    ensures mode == Mode(req)
    ensures r.Some? <==> allocOk
    ensures r.Some? ==> ModeCommand(abi, req, r.value)
    ensures r.Some? && mode == {RoamOffload} ==> r.value == req.image(ModeFixed)
  {
    var len := abi.size(ModeFixed) + abi.size(StartScan);
    var room: nat;
    room, mode := GetRsoBufLen(abi, req);
    len := len + room;
    if mode == {RoamOffload} {
      len := abi.size(ModeFixed);
    }
    if !allocOk {
      return None, mode;
    }
    var cmd := FillModeCommand(abi, req, init(len));
    r := Some(cmd);
  }

  /** Fill a buffer of the right length from end to end. */
  method FillModeCommand(abi: Abi, req: Request, init: Image) returns (cmd: Image)
    requires Fits(abi, req)
    requires |init| == abi.size(ModeFixed)
                     + if Mode(req) == {RoamOffload} then 0 else abi.size(StartScan) + Room(abi, req)
    ensures ModeCommand(abi, req, cmd)
  {
    var buf := new CmdBuf(abi.h, init);
    buf.PutFixed(req.image(ModeFixed));
    assert buf.fixed == req.image(ModeFixed);
    if Mode(req) == {RoamOffload} {
      cmd := buf.Contents();
      NothingBehind(req.image(ModeFixed));
    } else {
      buf.PutFixed(req.image(StartScan));
      ghost var pad := FillRsoTlvs(abi, req, buf);
      cmd := buf.Contents();
    }
  }

  /** A reader who walks the array headers behind the fixed parameters finds the sections and ends
      exactly at the end of the command. */
  lemma ModeCommandWalks(abi: Abi, req: Request, cmd: Image)
    requires Fits(abi, req) && ModeCommand(abi, req, cmd) && Mode(req) != {RoamOffload}
    ensures var from := abi.size(ModeFixed) + abi.size(StartScan);
            from <= |cmd| && exists pad :: Pads(req, pad) && Walk(abi.h, cmd[from..]) == Some(Layout(req, pad))
  {
    var from := abi.size(ModeFixed) + abi.size(StartScan);
    var pad :| Pads(req, pad) &&
      cmd == req.image(ModeFixed) + req.image(StartScan) + Encode(abi.h, Layout(req, pad));
    assert cmd[from..] == Encode(abi.h, Layout(req, pad));
    WalkEncode(abi.h, Layout(req, pad));
  }

  // ----- the roam filter command -----

  /** A filter request: images of the fixed parameters and of the list elements. */
  datatype FilterRequest = FilterRequest(
    fixed: Image,
    blackList: seq<Image>,
    whiteList: seq<Image>,
    preferred: seq<Image>,
    factors: seq<Image>,
    lcaDisallow: Option<Image>,
    rssiRejected: seq<Image>)

  /** Width of a header, and sizes of the fixed parameters and of the elements. */
  datatype FilterAbi = FilterAbi(h: nat, fixed: nat, mac: nat, ssid: nat, word: nat, lca: nat, reject: nat)

  predicate FilterFits(abi: FilterAbi, req: FilterRequest) {
    && abi.h > 0 && |req.fixed| == abi.fixed
    && AllOfSize(req.blackList, abi.mac) && AllOfSize(req.whiteList, abi.ssid) && AllOfSize(req.preferred, abi.mac)
    && AllOfSize(req.factors, abi.word) && |req.factors| == |req.preferred|
    && (req.lcaDisallow.Some? ==> |req.lcaDisallow.value| == abi.lca)
    && AllOfSize(req.rssiRejected, abi.reject)
  }

  function LcaImage(req: FilterRequest): Image {
    if req.lcaDisallow.Some? then req.lcaDisallow.value else []
  }

  function FilterFront(req: FilterRequest): seq<Tlv> {
    [Tlv(ArrayFixedStruc, Flat(req.blackList)), Tlv(ArrayFixedStruc, Flat(req.whiteList)),
     Tlv(ArrayFixedStruc, Flat(req.preferred))]
  }

  function FilterBack(req: FilterRequest): seq<Tlv> {
    [Tlv(ArrayUint32, Flat(req.factors)), Struc(LcaImage(req)), Struc(Flat(req.rssiRejected))]
  }

  /** The six arrays of the command. */
  function FilterLayout(req: FilterRequest): seq<Tlv> {
    FilterFront(req) + FilterBack(req)
  }

  method FillFilterFront(abi: FilterAbi, req: FilterRequest, buf: CmdBuf)
    requires FilterFits(abi, req) && buf.Valid() && buf.h == abi.h && buf.written == []
    requires buf.pos + 3 * abi.h + |Flat(req.blackList)| + |Flat(req.whiteList)| + |Flat(req.preferred)|
          <= buf.data.Length
    modifies buf`pos, buf`written, buf.data
    ensures buf.Valid() && buf.written == FilterFront(req)
    ensures buf.pos == old(buf.pos) + 3 * abi.h + |Flat(req.blackList)| + |Flat(req.whiteList)| + |Flat(req.preferred)|
  {
    buf.PutItems(ArrayFixedStruc, req.blackList, abi.mac);
    buf.PutItems(ArrayFixedStruc, req.whiteList, abi.ssid);
    buf.PutItems(ArrayFixedStruc, req.preferred, abi.mac);
  }

  method FillFilterBack(abi: FilterAbi, req: FilterRequest, buf: CmdBuf)
    requires FilterFits(abi, req) && buf.Valid() && buf.h == abi.h
    requires buf.pos + 3 * abi.h + |Flat(req.factors)| + |LcaImage(req)| + |Flat(req.rssiRejected)| <= buf.data.Length
    modifies buf`pos, buf`written, buf.data
    ensures buf.Valid() && buf.written == old(buf.written) + FilterBack(req)
    ensures buf.pos == old(buf.pos) + 3 * abi.h + |Flat(req.factors)| + |LcaImage(req)| + |Flat(req.rssiRejected)|
  {
    buf.PutItems(ArrayUint32, req.factors, abi.word);
    buf.PutTlv(ArrayStruc, LcaImage(req));
    buf.PutItems(ArrayStruc, req.rssiRejected, abi.reject);
  }

  lemma FilterSizes(abi: FilterAbi, req: FilterRequest)
    requires FilterFits(abi, req)
    ensures |Flat(req.blackList)| == |req.blackList| * abi.mac && |Flat(req.whiteList)| == |req.whiteList| * abi.ssid
    ensures |Flat(req.preferred)| == |req.preferred| * abi.mac && |Flat(req.factors)| == |req.preferred| * abi.word
    ensures |Flat(req.rssiRejected)| == |req.rssiRejected| * abi.reject
  {
    FlatSize(req.blackList, abi.mac);
    FlatSize(req.whiteList, abi.ssid);
    FlatSize(req.preferred, abi.mac);
    FlatSize(req.factors, abi.word);
    FlatSize(req.rssiRejected, abi.reject);
  }

  /** Compute the length, allocate, fill: the lists end exactly where the buffer does. */
  method SendRoamScanFilter(abi: FilterAbi, req: FilterRequest, allocOk: bool, init: nat -> Image)
    returns (r: Option<Image>)
    requires FilterFits(abi, req) && forall len :: |init(len)| == len
    ensures r.Some? <==> allocOk
    ensures r.Some? ==> r.value == req.fixed + Encode(abi.h, FilterLayout(req))
  {
    FilterSizes(abi, req);
    var len := abi.fixed;
    len := len + abi.h;
    if |req.blackList| > 0 {
      len := len + |req.blackList| * abi.mac;
    }
    len := len + abi.h;
    if |req.whiteList| > 0 {
      len := len + |req.whiteList| * abi.ssid;
    }
    len := len + 2 * abi.h;
    if |req.preferred| > 0 {
      len := len + |req.preferred| * abi.mac;
      len := len + |req.preferred| * abi.word;
    }
    len := len + abi.h;
    if req.lcaDisallow.Some? {
      len := len + abi.lca;
    }
    len := len + abi.h;
    if |req.rssiRejected| > 0 {
      len := len + |req.rssiRejected| * abi.reject;
    }
    if !allocOk {
      return None;
    }
    var cmd := FillFilterCommand(abi, req, init(len));
    r := Some(cmd);
  }

  /** Bytes the six arrays take. */
  function FilterRoom(abi: FilterAbi, req: FilterRequest): nat {
    6 * abi.h + |Flat(req.blackList)| + |Flat(req.whiteList)| + |Flat(req.preferred)|
    + |Flat(req.factors)| + |LcaImage(req)| + |Flat(req.rssiRejected)|
  }

  method FillFilterTlvs(abi: FilterAbi, req: FilterRequest, buf: CmdBuf)
    requires FilterFits(abi, req) && buf.Valid() && buf.h == abi.h && buf.written == []
    requires buf.pos + FilterRoom(abi, req) <= buf.data.Length
    modifies buf`pos, buf`written, buf.data
    ensures buf.Valid() && buf.written == FilterLayout(req) && buf.pos == old(buf.pos) + FilterRoom(abi, req)
  {
    FillFilterFront(abi, req, buf);
    assert buf.written == FilterFront(req);
    FillFilterBack(abi, req, buf);
  }

  method FillFilterCommand(abi: FilterAbi, req: FilterRequest, init: Image) returns (cmd: Image)
    requires FilterFits(abi, req)
    requires |init| == abi.fixed + FilterRoom(abi, req)
    ensures cmd == req.fixed + Encode(abi.h, FilterLayout(req))
  {
    var buf := new CmdBuf(abi.h, init);
    buf.PutFixed(req.fixed);
    assert buf.fixed == req.fixed && buf.pos == abi.fixed;
    FillFilterTlvs(abi, req, buf);
    cmd := buf.Contents();
  }

  /** The arrays of a filter command, one by one: the lists in the order of their counts, each as a whole. */
  lemma FilterSections(req: FilterRequest)
    ensures var ts := FilterLayout(req);
            && |ts| == 6
            && ts[0] == Tlv(ArrayFixedStruc, Flat(req.blackList)) && ts[1] == Tlv(ArrayFixedStruc, Flat(req.whiteList))
            && ts[2] == Tlv(ArrayFixedStruc, Flat(req.preferred)) && ts[3] == Tlv(ArrayUint32, Flat(req.factors))
            && ts[4] == Tlv(ArrayStruc, if req.lcaDisallow.Some? then req.lcaDisallow.value else [])
            && ts[5] == Tlv(ArrayStruc, Flat(req.rssiRejected))
  {
  }

  /** Walking the array headers of a filter command finds the six arrays and ends at its end. */
  lemma FilterCommandWalks(abi: FilterAbi, req: FilterRequest)
    requires FilterFits(abi, req)
    ensures Walk(abi.h, (req.fixed + Encode(abi.h, FilterLayout(req)))[abi.fixed..]) == Some(FilterLayout(req))
  {
    assert (req.fixed + Encode(abi.h, FilterLayout(req)))[abi.fixed..] == Encode(abi.h, FilterLayout(req));
    WalkEncode(abi.h, FilterLayout(req));
  }

  // ----- splitting the key -----

  const PMK_BYTES := 32
  const PMK_EXT_BYTES := 16

  /** A key as it is sent: first part and extension. */
  datatype Key = Key(main: Image, ext: Image)

  /** 11r: the extension takes whatever the first part cannot hold. */
  function Split11r(key: Image, len: nat): (r: Key)
    requires len <= |key|
  {
    var n := if len > PMK_BYTES then PMK_BYTES else len;
    Key(key[..n], if len > PMK_BYTES then key[n..len] else [])
  }

  /** 11i: the extension has its full size as soon as there is one. */
  function Split11i(key: Image, len: nat): (r: Key)
    requires len <= |key| && PMK_BYTES + PMK_EXT_BYTES <= |key|
  {
    var n := if len > PMK_BYTES then PMK_BYTES else len;
    Key(key[..n], if len > PMK_BYTES then key[PMK_BYTES..PMK_BYTES + PMK_EXT_BYTES] else [])
  }

  /** The two parts of an 11r key are the key, and the second fits the extension field exactly for keys
      of up to 48 bytes. */
  lemma Split11rWhole(key: Image, len: nat)
    requires len <= |key|
    ensures Split11r(key, len).main + Split11r(key, len).ext == key[..len]
    ensures |Split11r(key, len).main| <= 32
    ensures |Split11r(key, len).ext| <= 16 <==> len <= 48
  {
  }

  /** The two parts of an 11i key are the key exactly when it fits the first part or fills both. */
  lemma Split11iWholeIff(key: Image, len: nat)
    requires len <= |key| && PMK_BYTES + PMK_EXT_BYTES <= |key|
    ensures Split11i(key, len).main + Split11i(key, len).ext == key[..len]
       <==> len <= 32 || len == 48
  {
    var k := Split11i(key, len);
    if PMK_BYTES < len {
      assert |k.main + k.ext| == PMK_BYTES + PMK_EXT_BYTES;
      assert k.main + k.ext == key[..PMK_BYTES + PMK_EXT_BYTES];
    } else {
      assert k.main + k.ext == key[..len];
    }
  }
}
