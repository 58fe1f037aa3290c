/** The DELQA control and status register and the interrupt level derived from
it.  A register word is the set of the named bits that are 1. */
module DelqaCsr {
  datatype CsrBit = RI | PE | CA | OK | SE | EL | IL | XI | IE | RL | XL | BD | NI | SR | RE

  type Csr = set<CsrBit>

  /** Bits the host writes. */
  const RW_MASK: Csr := {SE, EL, IL, IE, BD, SR, RE}
  /** Bits the host clears by writing 1. */
  const W1_MASK: Csr := {RI, XI}
  const ALL_BITS: Csr := {RI, PE, CA, OK, SE, EL, IL, XI, IE, RL, XL, BD, NI, SR, RE}
  const BOOT: Csr := {EL, BD}

  /** The CSR, the vector programmed in VAR, whether the controller has its interrupt asserted, and whether
  a request is outstanding at the bus adapter. */
  datatype Controller = Controller(csr: Csr, vector: nat, asserted: bool, requested: bool)

  /** The interrupt level: enabled, something to report, and a vector to report it at. */
  predicate Want(c: Controller) {
    IE in c.csr && (XI in c.csr || RI in c.csr) && c.vector != 0
  }

  function SetInterrupt(c: Controller): Controller {
    if c.vector == 0 then c else c.(asserted := true, requested := true)
  }

  function ClearInterrupt(c: Controller): Controller {
    c.(asserted := false, requested := false)
  }

  /** `update_csr`: sets, then clears, then re-derives the interrupt; a level still high is requested again. */
  function UpdateCsr(c: Controller, setBits: Csr, clearBits: Csr): Controller {
    var u := c.(csr := c.csr + setBits - clearBits);
    if Want(u) && !u.asserted then SetInterrupt(u)
    else if Want(u) && u.asserted then u.(requested := true)
    else if !Want(u) && u.asserted then ClearInterrupt(u)
    else u
  }

  /** A software reset leaves the lists empty, transceiver power on, and nothing requested. */
  function SoftwareReset(c: Controller): Controller {
    ClearInterrupt(UpdateCsr(UpdateCsr(c, {XL, RL}, ALL_BITS - {XL, RL}), {OK}, {CA}))
  }

  /** Whether a CSR write is the falling edge of SR that resets the controller. */
  predicate ResetsController(c: Controller, data: Csr) { SR in c.csr && SR !in data }

  /** `write_csr` on a controller it does not reset. */
  function WriteCsr(c: Controller, data: Csr): Controller {
    if ResetsController(c, data) then SoftwareReset(c)
    else UpdateCsr(c, data * RW_MASK, (RW_MASK - data) + (data * W1_MASK) + (if XI in data then {NI} else {}))
  }

  /** A host programs VAR; the interrupt is not derived anew until the CSR next changes. */
  function WriteVector(c: Controller, vector: nat): Controller { c.(vector := vector) }

  /** The processor takes the request. */
  function Grant(c: Controller): Controller { c.(requested := false) }

  /** The bus timeout report. */
  function NxmError(c: Controller): Controller { UpdateCsr(c, {NI, XI, XL, RL}, {}) }

  // --- what the derivation guarantees ----------------------------------------

  /** No request without the controller standing behind it. */
  predicate Honest(c: Controller) { c.requested ==> c.asserted }

  /** After any CSR change the request is outstanding exactly while the level is high. */
  lemma UpdateDerivesLevel(c: Controller, setBits: Csr, clearBits: Csr)
    requires Honest(c)
    ensures var u := UpdateCsr(c, setBits, clearBits);
            && u.csr == c.csr + setBits - clearBits && u.vector == c.vector
            && Honest(u) && u.asserted == u.requested == Want(u)
  {
  }

  /** Every bit after a host write, one rule per kind of bit. */
  lemma WriteCsrBits(c: Controller, data: Csr, b: CsrBit)
    requires !ResetsController(c, data)
    ensures b in WriteCsr(c, data).csr <==>
              match b
              case SE => SE in data case EL => EL in data case IL => IL in data case IE => IE in data
              case BD => BD in data case SR => SR in data case RE => RE in data
              case RI => RI in c.csr && RI !in data
              case XI => XI in c.csr && XI !in data
              case NI => NI in c.csr && XI !in data
              case _ => b in c.csr
  {
  }

  lemma EveryBit(b: CsrBit)
    ensures b in ALL_BITS
  {
    match b
    case RI => case PE => case CA => case OK => case SE => case EL => case IL => case XI =>
    case IE => case RL => case XL => case BD => case NI => case SR => case RE =>
  }

  /** After a reset only the list-empty bits and transceiver power remain, and no interrupt. */
  lemma ResetState(c: Controller)
    ensures SoftwareReset(c) == Controller({XL, RL, OK}, c.vector, false, false)
  {
    var u := UpdateCsr(c, {XL, RL}, ALL_BITS - {XL, RL});
    forall b: CsrBit ensures b in ALL_BITS { EveryBit(b); }
    assert u.csr == {XL, RL};
    assert UpdateCsr(u, {OK}, {CA}).csr == {XL, RL, OK};
  }

  // --- runs ---------------------------------------------------------------------

  /** Everything that happens to the register and its interrupt. */
  datatype CsrEvent = Write(data: Csr) | Complete(setBits: Csr, clearBits: Csr) | Vector(v: nat) | Granted | Reset

  function Step(c: Controller, e: CsrEvent): Controller {
    match e
    case Write(data) => WriteCsr(c, data)
    case Complete(setBits, clearBits) => UpdateCsr(c, setBits, clearBits)
    case Vector(v) => WriteVector(c, v)
    case Granted => Grant(c)
    case Reset => SoftwareReset(c)
  }

  function Run(c: Controller, es: seq<CsrEvent>): Controller
    decreases |es|
  {
    if es == [] then c else Step(Run(c, es[..|es| - 1]), es[|es| - 1])
  }

  /** An event after which the level has been derived anew. */
  predicate Derives(e: CsrEvent) { e.Write? || e.Complete? || e.Reset? }

  /** In every run: whenever the last event changed the CSR, a request is outstanding if and only if the level
  is high, so no completion is ever left without one; a grant takes the request and nothing else. */
  lemma {:induction false} LevelNeverStranded(c: Controller, es: seq<CsrEvent>)
    requires Honest(c)
    ensures Honest(Run(c, es))
    ensures es != [] && Derives(es[|es| - 1]) ==> Run(c, es).asserted == Run(c, es).requested == Want(Run(c, es))
  {
    if es != [] {
      LevelNeverStranded(c, es[..|es| - 1]);
      var before, e := Run(c, es[..|es| - 1]), es[|es| - 1];
      match e
      case Write(data) =>
        if ResetsController(before, data) { ResetState(before); }
        else {
          UpdateDerivesLevel(before, data * RW_MASK, (RW_MASK - data) + (data * W1_MASK)
                             + (if XI in data then {NI} else {}));
        }
      case Complete(setBits, clearBits) => UpdateDerivesLevel(before, setBits, clearBits);
      case Reset => ResetState(before);
      case _ =>
    }
  }

  /** Programming a vector into an enabled, completed controller raises no request of its own. */
  lemma VectorAloneIsSilent()
    ensures var c := Controller({XI, IE}, 0, false, false);
            Want(WriteVector(c, 0x50)) && !WriteVector(c, 0x50).requested
  {
  }

  /** Enabled, with a completion to report. */
  predicate Reportable(c: Controller) { IE in c.csr && (XI in c.csr || RI in c.csr) }

  /** When request and level part: from a state in which they agree, a vector write parts them exactly when a completion
  stands enabled and the write takes the vector from zero or to zero; a grant parts them exactly when the level is
  still high.  The next CSR change brings them together again. */
  lemma RequestParts(c: Controller, v: nat, setBits: Csr, clearBits: Csr)
    requires Honest(c) && c.requested == Want(c)
    ensures var u := WriteVector(c, v);
            && (u.requested != Want(u) <==> Reportable(c) && ((c.vector == 0) != (v == 0)))
            && UpdateCsr(u, setBits, clearBits).requested == Want(UpdateCsr(u, setBits, clearBits))
    ensures var u := Grant(c);
            && (u.requested != Want(u) <==> Want(c))
            && UpdateCsr(u, setBits, clearBits).requested == Want(UpdateCsr(u, setBits, clearBits))
  {
    UpdateDerivesLevel(WriteVector(c, v), setBits, clearBits);
    UpdateDerivesLevel(Grant(c), setBits, clearBits);
  }
}
