/**
 * print_bc: the fixed opcode-to-mnemonic table of the C++ agent. The values
 * are those of chapter 7 ("Opcode Mnemonics by Opcode") of The Java Virtual
 * Machine Specification, Java SE 8.
 */
module Opcodes {
  import opened Wrappers
  import opened CText

  /** The switch cases of print_bc; every other opcode takes the default branch. */
  function TableMnemonic(op: byte): Option<string> {
    if op == 18 then Some("ldc")
    else if op == 19 then Some("ldc_w")
    else if op == 178 then Some("getstatic")
    else if op == 179 then Some("putstatic")
    else if op == 182 then Some("invokevirtual")
    else if op == 183 then Some("invokespecial")
    else if op == 184 then Some("invokestatic")
    else if op == 185 then Some("invokeinterface")
    else if op == 186 then Some("invokedynamic")
    else if op == 187 then Some("new")
    else if op == 189 then Some("anewarray")
    else if op == 191 then Some("athrow")
    else if op == 192 then Some("checkcast")
    else if op == 193 then Some("instanceof")
    else if op == 197 then Some("multianewarray")
    else None
  }

  const DefaultPrefix: string := "bytecode-"

  /**
   * print_bc as written: the default branch streams the `unsigned char`
   * itself, which an ostream renders as one raw character, not as a number.
   */
  function MnemonicAsWritten(op: byte): string {
    match TableMnemonic(op)
    case Some(m) => m
    case None => DefaultPrefix + [op as char]
  }

  /** print_bc as evidently intended: the default branch prints the opcode value in decimal. */
  function Mnemonic(op: byte): string {
    match TableMnemonic(op)
    case Some(m) => m
    case None => DefaultPrefix + NatToDecimal(op as nat)
  }

  /** Reads a rendered mnemonic back into its opcode (the partner of Mnemonic). */
  function OpcodeOf(m: string): Option<byte> {
    if |m| >= |DefaultPrefix| && m[..|DefaultPrefix|] == DefaultPrefix then
      var digits := m[|DefaultPrefix|..];
      if |digits| >= 1 && AllDigits(digits) && DecimalValue(digits) < 256
      then Some(DecimalValue(digits) as byte) else None
    else if m == "ldc" then Some(18)
    else if m == "ldc_w" then Some(19)
    else if m == "getstatic" then Some(178)
    else if m == "putstatic" then Some(179)
    else if m == "invokevirtual" then Some(182)
    else if m == "invokespecial" then Some(183)
    else if m == "invokestatic" then Some(184)
    else if m == "invokeinterface" then Some(185)
    else if m == "invokedynamic" then Some(186)
    else if m == "new" then Some(187)
    else if m == "anewarray" then Some(189)
    else if m == "athrow" then Some(191)
    else if m == "checkcast" then Some(192)
    else if m == "instanceof" then Some(193)
    else if m == "multianewarray" then Some(197)
    else None
  }

  /** Every opcode's rendering reads back as that opcode, so no two opcodes share a rendering. */
  lemma MnemonicRoundTrip(op: byte)
    ensures OpcodeOf(Mnemonic(op)) == Some(op)
  {
    match TableMnemonic(op)
    case Some(m) =>
      assert m[0] != 'b';
    case None =>
      var s := Mnemonic(op);
      DecimalRoundTrip(op as nat);
      assert s[..|DefaultPrefix|] == DefaultPrefix;
      assert s[|DefaultPrefix|..] == NatToDecimal(op as nat);
  }

  /** The default branch as written: opcode 42 renders as "bytecode-*", opcode 0 as a NUL byte. */
  lemma MnemonicAsWrittenIsRawCharacter()
    ensures MnemonicAsWritten(42) == "bytecode-*" && Mnemonic(42) == "bytecode-42"
    ensures MnemonicAsWritten(0) == "bytecode-" + [0 as char]
    ensures forall op: byte :: TableMnemonic(op).None? ==> |MnemonicAsWritten(op)| == |DefaultPrefix| + 1
  {
    assert NatToDecimal(42) == NatToDecimal(4) + [DigitChar(2)];
  }
}
