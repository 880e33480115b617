/** The repository's worked example (README.md), computed: its schema's content id, the 34 octets and
    the JSON text of its value, and the refusal of the corrupted one. The offset basis, the prime, the
    order of the hashed octets, the header, the mask and every spelling are pinned to what it prints. */
module WorkedExample {
  import opened Bytes
  import opened Wire
  import opened Hash
  import opened HashSteps
  import opened Model
  import opened Gate
  import opened SchemaId
  import opened Native
  import opened Json
  import opened Compat
  import opened Admission

  // "PlayerState", "hp", "name", "Ami"
  const PLAYER: bytes := [0x50, 0x6C, 0x61, 0x79, 0x65, 0x72, 0x53, 0x74, 0x61, 0x74, 0x65]
  const HP: bytes := [0x68, 0x70]
  const NAME: bytes := [0x6E, 0x61, 0x6D, 0x65]
  const AMI: bytes := [0x41, 0x6D, 0x69]

  function PlayerFields(): seq<Field> { [Field(HP, IntT, true), Field(NAME, TextT, true)] }

  const PLAYER_ID: u64 := 0xB1D69BAD13AE83D6

  function Player(): Schema { Schema(PLAYER, 1, PlayerFields(), PLAYER_ID) }

  /** hp = 30, name = "Ami" */
  function Ami(): Value { Value(Player(), [Some(IntC(30)), Some(TextC(AMI))]) }

  // ---- the content id ---------------------------------------------------------------------------

  // The octets of the schema's stream, folded in one after the other.

  lemma Folded0()
    ensures Fold(0x14650FB0739D0383, [0x0B, 0x00, 0x00, 0x00, 0x00, 0x00, 0x00, 0x00]) == 0xE2E3F0ABE63AC488
  {
    hide Step, Fold, Xor;
    OneStep(0x14650FB0739D0383, 0x0B, 0x14650FB0739D03,
            Bits(true, false, false, false, false, false, true, true),
            Bits(false, false, false, false, true, false, true, true),
            0x44BD30D473CD0018, 0x14650FB096);
    OneStep(0x44BD30D473CD0018, 0x00, 0x44BD30D473CD00,
            Bits(false, false, false, true, true, false, false, false),
            Bits(false, false, false, false, false, false, false, false),
            0x9A7A1100C55728C8, 0x44BD30D4E8);
    OneStep(0x9A7A1100C55728C8, 0x00, 0x9A7A1100C55728,
            Bits(true, true, false, false, true, false, false, false),
            Bits(false, false, false, false, false, false, false, false),
            0xD493AC4F531A4BD8, 0x9A7A1101CB);
    OneStep(0xD493AC4F531A4BD8, 0x00, 0xD493AC4F531A4B,
            Bits(true, true, false, true, true, false, false, false),
            Bits(false, false, false, false, false, false, false, false),
            0x5139A2CA35AEE008, 0xD493AC50BC);
    OneStep(0x5139A2CA35AEE008, 0x00, 0x5139A2CA35AEE0,
            Bits(false, false, false, false, true, false, false, false),
            Bits(false, false, false, false, false, false, false, false),
            0xB3CFA5993826AD98, 0x5139A2CABF);
    OneStep(0xB3CFA5993826AD98, 0x00, 0xB3CFA5993826AD,
            Bits(true, false, false, true, true, false, false, false),
            Bits(false, false, false, false, false, false, false, false),
            0xB083FB5A69B8F948, 0xB3CFA59A69);
    OneStep(0xB083FB5A69B8F948, 0x00, 0xB083FB5A69B8F9,
            Bits(false, true, false, false, true, false, false, false),
            Bits(false, false, false, false, false, false, false, false),
            0xA93D62A1A54F9558, 0xB083FB5B95);
    OneStep(0xA93D62A1A54F9558, 0x00, 0xA93D62A1A54F95,
            Bits(false, true, false, true, true, false, false, false),
            Bits(false, false, false, false, false, false, false, false),
            0xE2E3F0ABE63AC488, 0xA93D62A2C4);
    Unroll8(0x14650FB0739D0383, [0x0B, 0x00, 0x00, 0x00, 0x00, 0x00, 0x00, 0x00]);
  }

  lemma Folded1()
    ensures Fold(0xE2E3F0ABE63AC488, [0x50, 0x6C, 0x61, 0x79, 0x65, 0x72]) == 0x8B036B45B316377D
  {
    hide Step, Fold, Xor;
    OneStep(0xE2E3F0ABE63AC488, 0x50, 0xE2E3F0ABE63AC4,
            Bits(true, false, false, false, true, false, false, false),
            Bits(false, true, false, true, false, false, false, false),
            0xC416CC1835DC7B08, 0xE2E3F0AD67);
    OneStep(0xC416CC1835DC7B08, 0x6C, 0xC416CC1835DC7B,
            Bits(false, false, false, false, true, false, false, false),
            Bits(false, true, true, false, true, true, false, false),
            0x0F38312385A5AAEC, 0xC416CC1983);
    OneStep(0x0F38312385A5AAEC, 0x61, 0xF38312385A5AA,
            Bits(true, true, true, false, true, true, false, false),
            Bits(false, true, true, false, false, false, false, true),
            0x82260C5C1880CD97, 0xF3831239F);
    OneStep(0x82260C5C1880CD97, 0x79, 0x82260C5C1880CD,
            Bits(true, false, false, true, false, true, true, true),
            Bits(false, true, true, true, true, false, false, true),
            0xA774EE7DA2DDEB6A, 0x82260C5CF5);
    OneStep(0xA774EE7DA2DDEB6A, 0x65, 0xA774EE7DA2DDEB,
            Bits(false, true, true, false, true, false, true, false),
            Bits(false, true, true, false, false, true, false, true),
            0x699C4E7BBF166A7D, 0xA774EE7EBF);
    OneStep(0x699C4E7BBF166A7D, 0x72, 0x699C4E7BBF166A,
            Bits(false, true, true, true, true, true, false, true),
            Bits(false, true, true, true, false, false, true, false),
            0x8B036B45B316377D, 0x699C4E7C72);
    Unroll6(0xE2E3F0ABE63AC488, [0x50, 0x6C, 0x61, 0x79, 0x65, 0x72]);
  }

  lemma Folded2()
    ensures Fold(0x8B036B45B316377D, [0x53, 0x74, 0x61, 0x74, 0x65]) == 0xAAFC6C261709FCFE
  {
    hide Step, Fold, Xor;
    OneStep(0x8B036B45B316377D, 0x53, 0x8B036B45B31637,
            Bits(false, true, true, true, true, true, false, true),
            Bits(false, true, false, true, false, false, true, true),
            0x4D06756F4EBFC32A, 0x8B036B469F);
    OneStep(0x4D06756F4EBFC32A, 0x74, 0x4D06756F4EBFC3,
            Bits(false, false, true, false, true, false, true, false),
            Bits(false, true, true, true, false, true, false, false),
            0xA1BCEA22CFD8F8BA, 0x4D06756FD1);
    OneStep(0xA1BCEA22CFD8F8BA, 0x61, 0xA1BCEA22CFD8F8,
            Bits(true, false, true, true, true, false, true, false),
            Bits(false, true, true, false, false, false, false, true),
            0xACFAB4272DAEDC21, 0xA1BCEA23E2);
    OneStep(0xACFAB4272DAEDC21, 0x74, 0xACFAB4272DAEDC,
            Bits(false, false, true, false, false, false, false, true),
            Bits(false, true, true, true, false, true, false, false),
            0x9CDC7392A020646F, 0xACFAB42853);
    OneStep(0x9CDC7392A020646F, 0x65, 0x9CDC7392A02064,
            Bits(false, true, true, false, true, true, true, true),
            Bits(false, true, true, false, false, true, false, true),
            0xAAFC6C261709FCFE, 0x9CDC7393AA);
    Unroll5(0x8B036B45B316377D, [0x53, 0x74, 0x61, 0x74, 0x65]);
  }

  lemma Folded3()
    ensures Fold(0xAAFC6C261709FCFE, [0x01, 0x00, 0x00, 0x00, 0x00, 0x00, 0x00, 0x00]) == 0xFC4CF7BE037C52DF
  {
    hide Step, Fold, Xor;
    OneStep(0xAAFC6C261709FCFE, 0x01, 0xAAFC6C261709FC,
            Bits(true, true, true, true, true, true, true, false),
            Bits(false, false, false, false, false, false, false, true),
            0x94E8C3B925F8E54D, 0xAAFC6C2739);
    OneStep(0x94E8C3B925F8E54D, 0x00, 0x94E8C3B925F8E5,
            Bits(false, true, false, false, true, true, false, true),
            Bits(false, false, false, false, false, false, false, false),
            0x0069E09B85EDA1D7, 0x94E8C3BA23);
    OneStep(0x0069E09B85EDA1D7, 0x00, 0x69E09B85EDA1,
            Bits(true, true, false, true, false, true, true, true),
            Bits(false, false, false, false, false, false, false, false),
            0xA18A7F4492CA0055, 0x69E09B86);
    OneStep(0xA18A7F4492CA0055, 0x00, 0xA18A7F4492CA00,
            Bits(false, true, false, true, false, true, false, true),
            Bits(false, false, false, false, false, false, false, false),
            0x485696856D3E906F, 0xA18A7F45A5);
    OneStep(0x485696856D3E906F, 0x00, 0x485696856D3E90,
            Bits(false, true, true, false, true, true, true, true),
            Bits(false, false, false, false, false, false, false, false),
            0x29B233B8A14F6C9D, 0x48569685E8);
    OneStep(0x29B233B8A14F6C9D, 0x00, 0x29B233B8A14F6C,
            Bits(true, false, false, true, true, true, false, true),
            Bits(false, false, false, false, false, false, false, false),
            0x293A7FBA19F58EC7, 0x29B233B8E8);
    OneStep(0x293A7FBA19F58EC7, 0x00, 0x293A7FBA19F58E,
            Bits(true, true, false, false, false, true, true, true),
            Bits(false, false, false, false, false, false, false, false),
            0x03F5D03A1C419C25, 0x293A7FBA60);
    OneStep(0x03F5D03A1C419C25, 0x00, 0x3F5D03A1C419C,
            Bits(false, false, true, false, false, true, false, true),
            Bits(false, false, false, false, false, false, false, false),
            0xFC4CF7BE037C52DF, 0x3F5D03A22);
    Unroll8(0xAAFC6C261709FCFE, [0x01, 0x00, 0x00, 0x00, 0x00, 0x00, 0x00, 0x00]);
  }

  lemma Folded4()
    ensures Fold(0xFC4CF7BE037C52DF, [0x02, 0x00, 0x00, 0x00, 0x00, 0x00, 0x00, 0x00]) == 0x11ABAD93614D907D
  {
    hide Step, Fold, Xor;
    OneStep(0xFC4CF7BE037C52DF, 0x02, 0xFC4CF7BE037C52,
            Bits(true, true, false, true, true, true, true, true),
            Bits(false, false, false, false, false, false, true, false),
            0x331BD4DFEC40CD87, 0xFC4CF7BFB0);
    OneStep(0x331BD4DFEC40CD87, 0x00, 0x331BD4DFEC40CD,
            Bits(true, false, false, false, false, true, true, true),
            Bits(false, false, false, false, false, false, false, false),
            0x19183F7E721D3C65, 0x331BD4E043);
    OneStep(0x19183F7E721D3C65, 0x00, 0x19183F7E721D3C,
            Bits(false, true, true, false, false, true, false, true),
            Bits(false, false, false, false, false, false, false, false),
            0xC17048DBE7AD9F9F, 0x19183F7E9C);
    OneStep(0xC17048DBE7AD9F9F, 0x00, 0xC17048DBE7AD9F,
            Bits(true, false, false, true, true, true, true, true),
            Bits(false, false, false, false, false, false, false, false),
            0x5F6B6CAAAC063B2D, 0xC17048DD30);
    OneStep(0x5F6B6CAAAC063B2D, 0x00, 0x5F6B6CAAAC063B,
            Bits(false, false, true, false, true, true, false, true),
            Bits(false, false, false, false, false, false, false, false),
            0x29C4D3024E968D77, 0x5F6B6CAB4E);
    OneStep(0x29C4D3024E968D77, 0x00, 0x29C4D3024E968D,
            Bits(false, true, true, true, false, true, true, true),
            Bits(false, false, false, false, false, false, false, false),
            0x900003EB89D26135, 0x29C4D30295);
    OneStep(0x900003EB89D26135, 0x00, 0x900003EB89D261,
            Bits(false, false, true, true, false, true, false, true),
            Bits(false, false, false, false, false, false, false, false),
            0x8267DE3B307B2D0F, 0x900003EC7E);
    OneStep(0x8267DE3B307B2D0F, 0x00, 0x8267DE3B307B2D,
            Bits(false, false, false, false, true, true, true, true),
            Bits(false, false, false, false, false, false, false, false),
            0x11ABAD93614D907D, 0x8267DE3C0E);
    Unroll8(0xFC4CF7BE037C52DF, [0x02, 0x00, 0x00, 0x00, 0x00, 0x00, 0x00, 0x00]);
  }

  lemma Folded5()
    ensures Fold(0x11ABAD93614D907D, [0x02, 0x00, 0x00, 0x00, 0x00, 0x00, 0x00, 0x00]) == 0x6AC5A6A5D355565F
  {
    hide Step, Fold, Xor;
    OneStep(0x11ABAD93614D907D, 0x02, 0x11ABAD93614D90,
            Bits(false, true, true, true, true, true, false, true),
            Bits(false, false, false, false, false, false, true, false),
            0x5448706E56CC87CD, 0x11ABAD937F);
    OneStep(0x5448706E56CC87CD, 0x00, 0x5448706E56CC87,
            Bits(true, true, false, false, true, true, false, true),
            Bits(false, false, false, false, false, false, false, false),
            0x039ED87D7D8AC157, 0x5448706EE6);
    OneStep(0x039ED87D7D8AC157, 0x00, 0x39ED87D7D8AC1,
            Bits(false, true, false, true, false, true, true, true),
            Bits(false, false, false, false, false, false, false, false),
            0xB1AB343C52C686D5, 0x39ED87D83);
    OneStep(0xB1AB343C52C686D5, 0x00, 0xB1AB343C52C686,
            Bits(true, true, false, true, false, true, false, true),
            Bits(false, false, false, false, false, false, false, false),
            0xAC709780A7571BEF, 0xB1AB343D80);
    OneStep(0xAC709780A7571BEF, 0x00, 0xAC709780A7571B,
            Bits(true, true, true, false, true, true, true, true),
            Bits(false, false, false, false, false, false, false, false),
            0x5A6D5E9C5904771D, 0xAC709781CC);
    OneStep(0x5A6D5E9C5904771D, 0x00, 0x5A6D5E9C590477,
            Bits(false, false, false, true, true, true, false, true),
            Bits(false, false, false, false, false, false, false, false),
            0xAC4EE0AB42966647, 0x5A6D5E9CF2);
    OneStep(0xAC4EE0AB42966647, 0x00, 0xAC4EE0AB429666,
            Bits(false, true, false, false, false, true, true, true),
            Bits(false, false, false, false, false, false, false, false),
            0x606E0A02258FCAA5, 0xAC4EE0AC67);
    OneStep(0x606E0A02258FCAA5, 0x00, 0x606E0A02258FCA,
            Bits(true, false, true, false, false, true, false, true),
            Bits(false, false, false, false, false, false, false, false),
            0x6AC5A6A5D355565F, 0x606E0A02C9);
    Unroll8(0x11ABAD93614D907D, [0x02, 0x00, 0x00, 0x00, 0x00, 0x00, 0x00, 0x00]);
  }

  lemma Folded6()
    ensures Fold(0x6AC5A6A5D355565F, [0x68, 0x70, 0x01, 0x00]) == 0x56CD06768C86EB2E
  {
    hide Step, Fold, Xor;
    OneStep(0x6AC5A6A5D355565F, 0x68, 0x6AC5A6A5D35556,
            Bits(false, true, false, true, true, true, true, true),
            Bits(false, true, true, false, true, false, false, false),
            0xC33062C61A017F75, 0x6AC5A6A688);
    OneStep(0xC33062C61A017F75, 0x70, 0xC33062C61A017F,
            Bits(false, true, true, true, false, true, false, true),
            Bits(false, true, true, true, false, false, false, false),
            0xACB6DB9E308AD57F, 0xC33062C765);
    OneStep(0xACB6DB9E308AD57F, 0x01, 0xACB6DB9E308AD5,
            Bits(false, true, true, true, true, true, true, true),
            Bits(false, false, false, false, false, false, false, true),
            0x058CABCC7BE8C51A, 0xACB6DB9F56);
    OneStep(0x058CABCC7BE8C51A, 0x00, 0x58CABCC7BE8C5,
            Bits(false, false, false, true, true, false, true, false),
            Bits(false, false, false, false, false, false, false, false),
            0x56CD06768C86EB2E, 0x58CABCC85);
    Unroll4(0x6AC5A6A5D355565F, [0x68, 0x70, 0x01, 0x00]);
  }

  lemma Folded7()
    ensures Fold(0x56CD06768C86EB2E, [0x04, 0x00, 0x00, 0x00, 0x00, 0x00, 0x00, 0x00]) == 0x83067B864D94746A
  {
    hide Step, Fold, Xor;
    OneStep(0x56CD06768C86EB2E, 0x04, 0x56CD06768C86EB,
            Bits(false, false, true, false, true, true, true, false),
            Bits(false, false, false, false, false, true, false, false),
            0x054D2570C941985E, 0x56CD067720);
    OneStep(0x054D2570C941985E, 0x00, 0x54D2570C94198,
            Bits(false, true, false, true, true, true, true, false),
            Bits(false, false, false, false, false, false, false, false),
            0x43AEFCA5FA75E7BA, 0x54D2570D2);
    OneStep(0x43AEFCA5FA75E7BA, 0x00, 0x43AEFCA5FA75E7,
            Bits(true, false, true, true, true, false, true, false),
            Bits(false, false, false, false, false, false, false, false),
            0x783F08089658C10E, 0x43AEFCA66D);
    OneStep(0x783F08089658C10E, 0x00, 0x783F08089658C1,
            Bits(false, false, false, false, true, true, true, false),
            Bits(false, false, false, false, false, false, false, false),
            0xABDBB49778D00ACA, 0x783F080962);
    OneStep(0xABDBB49778D00ACA, 0x00, 0xABDBB49778D00A,
            Bits(true, true, false, false, true, false, true, false),
            Bits(false, false, false, false, false, false, false, false),
            0xD65EA7624982553E, 0xABDBB4989C);
    OneStep(0xD65EA7624982553E, 0x00, 0xD65EA762498255,
            Bits(false, false, true, true, true, true, true, false),
            Bits(false, false, false, false, false, false, false, false),
            0xC52BAA02E876D85A, 0xD65EA763B5);
    OneStep(0xC52BAA02E876D85A, 0x00, 0xC52BAA02E876D8,
            Bits(false, true, false, true, true, false, true, false),
            Bits(false, false, false, false, false, false, false, false),
            0x800A3CF101F1A0EE, 0xC52BAA0437);
    OneStep(0x800A3CF101F1A0EE, 0x00, 0x800A3CF101F1A0,
            Bits(true, true, true, false, true, true, true, false),
            Bits(false, false, false, false, false, false, false, false),
            0x83067B864D94746A, 0x800A3CF1DB);
    Unroll8(0x56CD06768C86EB2E, [0x04, 0x00, 0x00, 0x00, 0x00, 0x00, 0x00, 0x00]);
  }

  lemma Folded8()
    ensures Fold(0x83067B864D94746A, [0x6E, 0x61, 0x6D, 0x65, 0x01, 0x02]) == 0xB1D69BAD13AE83D6
  {
    hide Step, Fold, Xor;
    OneStep(0x83067B864D94746A, 0x6E, 0x83067B864D9474,
            Bits(false, true, true, false, true, false, true, false),
            Bits(false, true, true, false, true, true, true, false),
            0x3877E935D34122CC, 0x83067B872C);
    OneStep(0x3877E935D34122CC, 0x61, 0x3877E935D34122,
            Bits(true, true, false, false, true, true, false, false),
            Bits(false, true, true, false, false, false, false, true),
            0x34E3F375F7ADEBF7, 0x3877E93633);
    OneStep(0x34E3F375F7ADEBF7, 0x6D, 0x34E3F375F7ADEB,
            Bits(true, true, true, true, false, true, true, true),
            Bits(false, true, true, false, true, true, false, true),
            0x8D424B73DC8756AE, 0x34E3F37651);
    OneStep(0x8D424B73DC8756AE, 0x65, 0x8D424B73DC8756,
            Bits(true, false, true, false, true, true, true, false),
            Bits(false, true, true, false, false, true, false, true),
            0x8EFD00DFB9F87AF1, 0x8D424B74CC);
    OneStep(0x8EFD00DFB9F87AF1, 0x01, 0x8EFD00DFB9F87A,
            Bits(true, true, true, true, false, false, false, true),
            Bits(false, false, false, false, false, false, false, true),
            0xF0636C290138E5D0, 0x8EFD00E0AC);
    OneStep(0xF0636C290138E5D0, 0x02, 0xF0636C290138E5,
            Bits(true, true, false, true, false, false, false, false),
            Bits(false, false, false, false, false, false, true, false),
            0xB1D69BAD13AE83D6, 0xF0636C2A99);
    Unroll6(0x83067B864D94746A, [0x6E, 0x61, 0x6D, 0x65, 0x01, 0x02]);
  }

  lemma PutSmall(v: byte)
    ensures PutLE(v, 8) == [v, 0, 0, 0, 0, 0, 0, 0]
  {
    hide PutLE;
    NextOctet(v, 8);
    NextOctet(0, 7);
    NextOctet(0, 6);
    NextOctet(0, 5);
    NextOctet(0, 4);
    NextOctet(0, 3);
    NextOctet(0, 2);
    NextOctet(0, 1);
    NextOctet(0, 0);
  }

  lemma NextOctet(v: byte, n: nat)
    ensures PutLE(v, n) == if n == 0 then [] else [v] + PutLE(0, n - 1)
  {
  }

  lemma PlayerStream()
    ensures SchemaStream(PLAYER, 1, PlayerFields()) ==
            (PutLE(11, 8) + PLAYER) + (PutLE(1, 8) + (PutLE(2, 8) + (PutLE(2, 8)
            + ((HP + ([1] + [0])) + (PutLE(4, 8) + (NAME + ([1] + [2])))))))
  {
    hide PutLE;
    var f, g := Field(HP, IntT, true), Field(NAME, TextT, true);
    assert PlayerFields() == [f, g] && PlayerFields()[1..] == [g] && [g][1..] == [];
    assert FieldStream(f) == (PutLE(2, 8) + HP) + ([1] + [0]);
    assert FieldStream(g) == (PutLE(4, 8) + NAME) + ([1] + [2]);
    assert FieldsStream([g]) == FieldStream(g) + FieldsStream([]);
    assert FieldStream(g) + FieldsStream([]) == PutLE(4, 8) + (NAME + ([1] + [2]));
    assert FieldStream(f) + (PutLE(4, 8) + (NAME + ([1] + [2])))
           == PutLE(2, 8) + ((HP + ([1] + [0])) + (PutLE(4, 8) + (NAME + ([1] + [2]))));
  }

  /** The content id is the one the repository prints: 0xb1d69bad13ae83d6. */
  lemma PlayerId()
    ensures ContentId(PLAYER, 1, PlayerFields()) == PLAYER_ID
  {
    hide Fold, PutLE;
    PutSmall(11);
    PutSmall(1);
    PutSmall(2);
    PutSmall(4);
    var hp, name := HP + ([1] + [0]), NAME + ([1] + [2]);
    assert hp == [0x68, 0x70, 1, 0];
    assert name == [0x6E, 0x61, 0x6D, 0x65, 1, 2];
    assert |PLAYER| == 11;
    PlayerStream();
    FoldAppend(0x14650FB0739D0383, PutLE(11, 8) + PLAYER,
               PutLE(1, 8) + (PutLE(2, 8) + (PutLE(2, 8) + (hp + (PutLE(4, 8) + name)))));
    FoldAppend(0x14650FB0739D0383, PutLE(11, 8), PLAYER);
    assert PLAYER == [0x50, 0x6C, 0x61, 0x79, 0x65, 0x72] + [0x53, 0x74, 0x61, 0x74, 0x65];
    FoldAppend(0xE2E3F0ABE63AC488, [0x50, 0x6C, 0x61, 0x79, 0x65, 0x72], [0x53, 0x74, 0x61, 0x74, 0x65]);
    FoldAppend(0xAAFC6C261709FCFE, PutLE(1, 8), PutLE(2, 8) + (PutLE(2, 8) + (hp + (PutLE(4, 8) + name))));
    FoldAppend(0xFC4CF7BE037C52DF, PutLE(2, 8), PutLE(2, 8) + (hp + (PutLE(4, 8) + name)));
    FoldAppend(0x11ABAD93614D907D, PutLE(2, 8), hp + (PutLE(4, 8) + name));
    FoldAppend(0x6AC5A6A5D355565F, hp, PutLE(4, 8) + name);
    FoldAppend(0x56CD06768C86EB2E, PutLE(4, 8), name);
    Folded0();
    Folded1();
    Folded2();
    Folded3();
    Folded4();
    Folded5();
    Folded6();
    Folded7();
    Folded8();
  }

  /** The constructor makes the schema of the example. */
  lemma PlayerIsMade()
    ensures MakeSchema(PLAYER, 1, RawOf(PlayerFields())) == Some(Player())
  {
    hide ContentId;
    PlayerId();
    assert HP[0] != NAME[0];
    CheckedFieldsIsExact(RawOf(PlayerFields()), PlayerFields());
  }

  // ---- the native bytes -------------------------------------------------------------------------

  lemma NextOf(q: nat, d: byte, n: nat)
    requires n > 0
    ensures PutLE(256 * q + d, n) == [d] + PutLE(q, n - 1)
  {
    hide PutLE;
    PutNext(256 * q + d, n);
    LowOctet(256 * q + d, q, d);
  }

  lemma IdOctets()
    ensures PutLE(PLAYER_ID, 8) == [0xD6, 0x83, 0xAE, 0x13, 0xAD, 0x9B, 0xD6, 0xB1]
  {
    hide PutLE;
    NextOf(0xB1D69BAD13AE83, 0xD6, 8);
    NextOf(0xB1D69BAD13AE, 0x83, 7);
    NextOf(0xB1D69BAD13, 0xAE, 6);
    NextOf(0xB1D69BAD, 0x13, 5);
    NextOf(0xB1D69B, 0xAD, 4);
    NextOf(0xB1D6, 0x9B, 3);
    NextOf(0xB1, 0xD6, 2);
    NextOf(0x0, 0xB1, 1);
    assert PutLE(0, 0) == [] by { NextOctet(0, 0); }
  }

  lemma AmiBody()
    ensures EncodeBody(Ami()) == Some([0x03, 0x3C, 0x03] + AMI)
  {
    var v := Ami();
    assert EncodeFields(v, 2) == Some([]);
    assert PutUvarint(3) == [3] && |AMI| == 3;
    assert EncodeCell(TextC(AMI), TextT) == Some([3] + AMI);
    assert ([3] + AMI) + [] == [3] + AMI;
    assert EncodeFields(v, 1) == Some([3] + AMI);
    assert EncodeCell(IntC(30), IntT) == Some([60]);
    assert EncodeFields(v, 0) == Some([60] + ([3] + AMI));
    assert PackBits(v, 0, 8) == 3 by {
      assert PackBits(v, 2, 6) == 0;
      assert PackBits(v, 1, 7) == 1;
    }
    assert Mask(v) == [3];
    assert [3] + ([60] + ([3] + AMI)) == [0x03, 0x3C, 0x03] + AMI;
  }

  /** The 34 octets of the value. */
  lemma AmiSerialized()
    ensures Serialize(Ami()) == Some(
              [0x5A, 0x4E, 0x01] + ([0x0B, 0x00] + (PLAYER + ([0x01, 0x00, 0x00, 0x00]
              + ([0xD6, 0x83, 0xAE, 0x13, 0xAD, 0x9B, 0xD6, 0xB1] + ([0x03, 0x3C, 0x03] + AMI))))))
    ensures |Serialize(Ami()).value| == 34
  {
    hide PutLE, EncodeBody;
    AmiBody();
    IdOctets();
    NextOctet(11, 2);
    NextOctet(0, 1);
    NextOctet(0, 0);
    NextOctet(1, 4);
    NextOctet(0, 3);
    NextOctet(0, 2);
    assert |PLAYER| == 11;
    assert PutLE(11, 2) == [0x0B, 0x00] && PutLE(1, 4) == [0x01, 0x00, 0x00, 0x00];
  }

  // ---- the JSON text ----------------------------------------------------------------------------

  /** The octets of an ASCII text. */
  function Ascii(s: string): bytes {
    seq(|s|, i requires 0 <= i < |s| => s[i] as int % 128)
  }

  predicate NoEscape(s: bytes) {
    forall i :: 0 <= i < |s| ==> 0x20 <= s[i] && s[i] != QUOTE && s[i] != BACKSLASH
  }

  lemma {:induction false} QuotePlain(s: bytes)
    requires NoEscape(s)
    ensures QuoteChars(s) == s
  {
    if s != [] {
      QuotePlain(s[1..]);
    }
  }

  lemma HexStep(q: nat, d: nat, n: nat)
    requires d < 16 && n > 0
    ensures HexText(16 * q + d, n) == HexText(q, n - 1) + [HexChar(d)]
  {
  }

  /** The upper and the lower eight digits. */
  lemma IdHigh()
    ensures HexText(0xB1D69BAD, 8) == [0x62, 0x31, 0x64, 0x36, 0x39, 0x62, 0x61, 0x64]
  {
    hide HexText;
    NoDigits();
    HexStep(0x0, 11, 1);
    HexStep(0xB, 1, 2);
    HexStep(0xB1, 13, 3);
    HexStep(0xB1D, 6, 4);
    HexStep(0xB1D6, 9, 5);
    HexStep(0xB1D69, 11, 6);
    HexStep(0xB1D69B, 10, 7);
    HexStep(0xB1D69BA, 13, 8);
  }

  lemma IdLow()
    ensures HexText(PLAYER_ID, 16) == HexText(0xB1D69BAD, 8) + [0x31, 0x33, 0x61, 0x65, 0x38, 0x33, 0x64, 0x36]
  {
    hide HexText;
    HexStep(0xB1D69BAD, 1, 9);
    HexStep(0xB1D69BAD1, 3, 10);
    HexStep(0xB1D69BAD13, 10, 11);
    HexStep(0xB1D69BAD13A, 14, 12);
    HexStep(0xB1D69BAD13AE, 8, 13);
    HexStep(0xB1D69BAD13AE8, 3, 14);
    HexStep(0xB1D69BAD13AE83, 13, 15);
    HexStep(0xB1D69BAD13AE83D, 6, 16);
  }

  lemma IdDigits()
    ensures IdText(PLAYER_ID) == Ascii("0xb1d69bad13ae83d6")
  {
    hide HexText;
    IdHigh();
    IdLow();
    assert Ascii("0x") == HEX_PREFIX && Ascii("b1d69bad") == HexText(0xB1D69BAD, 8);
    assert IdText(PLAYER_ID) == Ascii("0x") + (Ascii("b1d69bad") + Ascii("13ae83d6"));
    hide Ascii, IdText;
    AsciiAppend("b1d69bad", "13ae83d6");
    AsciiAppend("0x", "b1d69bad13ae83d6");
    assert "b1d69bad" + "13ae83d6" == "b1d69bad13ae83d6" && "0x" + "b1d69bad13ae83d6" == "0xb1d69bad13ae83d6";
  }

  lemma NoDigits()
    ensures HexText(0, 0) == []
  {
  }

  /** The JSON text of the value, member by member. */
  lemma AmiAsText(ft: FloatText)
    ensures CompatSerialize(Ami(), ft) ==
            Ascii("{\"zen\":1") + (Ascii(",\"schema\":\"PlayerState\"") + (Ascii(",\"version\":1")
            + (Ascii(",\"content_id\":\"0xb1d69bad13ae83d6\"")
            + (Ascii(",\"fields\":{") + ((Ascii("\"hp\":\"30\"") + Ascii(",\"name\":\"Ami\"")) + Ascii("}}"))))))
  {
    hide Quote, IdText, MembersJson, Ascii;
    var members := MembersJson(Ami(), 0, true, ft);
    AmiMembers(ft);
    TextEntries();
    Regroup(Entry(KEY_ZEN, ENVELOPE_VERSION), Entry(KEY_SCHEMA, Quote(PLAYER)), Entry(KEY_VERSION, Decimal(1)),
            Entry(KEY_ID, Quote(IdText(PLAYER_ID))), Quote(KEY_FIELDS), members);
  }

  /** The envelope's commas and braces, moved to the entries they belong to. */
  lemma Regroup(a: bytes, b: bytes, c: bytes, d: bytes, key: bytes, members: bytes)
    ensures [OPEN_BRACE] + (a + ([COMMA] + (b + ([COMMA] + (c + ([COMMA] + (d + ([COMMA] + ((key + ([COLON]
            + ([OPEN_BRACE] + members + [CLOSE_BRACE]))) + [CLOSE_BRACE])))))))))
            == ([OPEN_BRACE] + a) + (([COMMA] + b) + (([COMMA] + c) + (([COMMA] + d)
               + (([COMMA] + (key + [COLON, OPEN_BRACE])) + (members + [CLOSE_BRACE, CLOSE_BRACE])))))
  {
    var last := [COMMA] + ((key + ([COLON] + ([OPEN_BRACE] + members + [CLOSE_BRACE]))) + [CLOSE_BRACE]);
    assert last == ([COMMA] + (key + [COLON, OPEN_BRACE])) + (members + [CLOSE_BRACE, CLOSE_BRACE]);
    Assoc([COMMA], d, last);
    Assoc([COMMA], c, ([COMMA] + d) + last);
    Assoc([COMMA], b, ([COMMA] + c) + (([COMMA] + d) + last));
    Assoc([OPEN_BRACE], a, ([COMMA] + b) + (([COMMA] + c) + (([COMMA] + d) + last)));
  }

  lemma {:induction false} AsciiAppend(a: string, b: string)
    ensures Ascii(a + b) == Ascii(a) + Ascii(b)
  {
  }

  /** An entry whose key needs no escapes, spelled out. */
  lemma EntryText(before: byte, key: bytes, text: bytes)
    requires NoEscape(key)
    ensures [before] + Entry(key, text) == ([before] + [QUOTE] + key + [QUOTE, COLON]) + text
  {
    hide QuoteChars;
    QuotePlain(key);
  }

  lemma TextEntries()
    ensures [OPEN_BRACE] + Entry(KEY_ZEN, ENVELOPE_VERSION) == Ascii("{\"zen\":1")
    ensures [COMMA] + Entry(KEY_SCHEMA, Quote(PLAYER)) == Ascii(",\"schema\":\"PlayerState\"")
    ensures [COMMA] + Entry(KEY_VERSION, Decimal(1)) == Ascii(",\"version\":1")
    ensures [COMMA] + Entry(KEY_ID, Quote(IdText(PLAYER_ID))) == Ascii(",\"content_id\":\"0xb1d69bad13ae83d6\"")
    ensures [COMMA] + (Quote(KEY_FIELDS) + [COLON, OPEN_BRACE]) == Ascii(",\"fields\":{")
    ensures [CLOSE_BRACE, CLOSE_BRACE] == Ascii("}}")
  {
    hide QuoteChars, Entry, IdText, Ascii;
    ZenEntry();
    SchemaEntry();
    VersionEntry();
    IdEntry();
    FieldsEntry();
  }

  lemma ZenEntry()
    ensures [OPEN_BRACE] + Entry(KEY_ZEN, ENVELOPE_VERSION) == Ascii("{\"zen\":1")
  {
    hide Entry;
    EntryText(OPEN_BRACE, KEY_ZEN, ENVELOPE_VERSION);
  }

  lemma SchemaEntry()
    ensures [COMMA] + Entry(KEY_SCHEMA, Quote(PLAYER)) == Ascii(",\"schema\":\"PlayerState\"")
  {
    hide Entry, QuoteChars;
    EntryText(COMMA, KEY_SCHEMA, Quote(PLAYER));
    QuotePlain(PLAYER);
    assert [COMMA] + [QUOTE] + KEY_SCHEMA + [QUOTE, COLON] == Ascii(",\"schema\":");
    assert Quote(PLAYER) == Ascii("\"PlayerState\"");
    hide Ascii, Quote;
    AsciiAppend(",\"schema\":", "\"PlayerState\"");
    assert ",\"schema\":" + "\"PlayerState\"" == ",\"schema\":\"PlayerState\"";
  }

  lemma VersionEntry()
    ensures [COMMA] + Entry(KEY_VERSION, Decimal(1)) == Ascii(",\"version\":1")
  {
    hide Entry;
    EntryText(COMMA, KEY_VERSION, Decimal(1));
    assert Decimal(1) == [0x31];
  }

  lemma IdEntry()
    ensures [COMMA] + Entry(KEY_ID, Quote(IdText(PLAYER_ID))) == Ascii(",\"content_id\":\"0xb1d69bad13ae83d6\"")
  {
    hide Entry, QuoteChars, IdText;
    EntryText(COMMA, KEY_ID, Quote(IdText(PLAYER_ID)));
    IdDigits();
    IdQuoted();
    IdKey();
    hide Ascii, Quote;
    AsciiAppend(",\"content_id\":", "\"0xb1d69bad13ae83d6\"");
    assert ",\"content_id\":" + "\"0xb1d69bad13ae83d6\"" == ",\"content_id\":\"0xb1d69bad13ae83d6\"";
  }

  lemma IdKey()
    ensures [COMMA] + [QUOTE] + KEY_ID + [QUOTE, COLON] == Ascii(",\"content_id\":")
  {
  }

  lemma IdQuoted()
    ensures Quote(Ascii("0xb1d69bad13ae83d6")) == Ascii("\"0xb1d69bad13ae83d6\"")
  {
    hide QuoteChars;
    QuotePlain(Ascii("0xb1d69bad13ae83d6"));
  }

  lemma FieldsEntry()
    ensures [COMMA] + (Quote(KEY_FIELDS) + [COLON, OPEN_BRACE]) == Ascii(",\"fields\":{")
    ensures [CLOSE_BRACE, CLOSE_BRACE] == Ascii("}}")
  {
    hide QuoteChars;
    QuotePlain(KEY_FIELDS);
  }

  lemma AmiMembers(ft: FloatText)
    ensures MembersJson(Ami(), 0, true, ft) == Ascii("\"hp\":\"30\"") + Ascii(",\"name\":\"Ami\"")
  {
    hide Quote, CellJson, Ascii;
    var v := Ami();
    HpMember(ft);
    NameMember(ft);
    var hp, name := Quote(HP) + ([COLON] + CellJson(IntC(30), ft)), Quote(NAME) + ([COLON] + CellJson(TextC(AMI), ft));
    assert MembersJson(v, 2, false, ft) == [];
    assert MembersJson(v, 1, false, ft) == [COMMA] + name;
    assert MembersJson(v, 0, true, ft) == hp + ([COMMA] + name);
  }

  lemma HpMember(ft: FloatText)
    ensures Quote(HP) + ([COLON] + CellJson(IntC(30), ft)) == Ascii("\"hp\":\"30\"")
  {
    hide QuoteChars;
    QuotePlain(HP);
    assert Decimal(30) == [0x33, 0x30];
  }

  lemma NameMember(ft: FloatText)
    ensures [COMMA] + (Quote(NAME) + ([COLON] + CellJson(TextC(AMI), ft))) == Ascii(",\"name\":\"Ami\"")
  {
    hide QuoteChars;
    QuotePlain(NAME);
    QuotePlain(AMI);
  }

  // ---- the corrupted candidate ------------------------------------------------------------------

  /** hp = "oops" is refused as a malformed number at hp; the full report adds the missing name. */
  lemma OopsIsRefused(ft: FloatText)
    ensures var u := JsonClaim(PLAYER, 1, None, [Member(HP, JString(Ascii("oops")))]);
            && Admit(u, Player(), false, ft) == Rejected([Error(MalformedField, HP)])
            && Admit(u, Player(), true, ft) == Rejected([Error(MalformedField, HP), Error(MissingField, NAME)])
  {
    hide Ascii, DecodeObject, Diagnose, Uncovered;
    var door, bad, gone := Player(), Error(MalformedField, HP), Error(MissingField, NAME);
    var ms := [Member(HP, JString(Ascii("oops")))];
    OopsDecoded(ft);
    NothingHeld();
    var v := Value(door, [None, None]);
    assert Covered([bad], HP) by { assert [bad][0].path == HP; }
    assert !Covered([bad], NAME) by { assert HP[0] != NAME[0]; }
    assert Uncovered([Error(MissingField, HP), gone], [bad]) == [gone] by { CoveredPassed([bad], gone); }
    assert Cut([Error(MissingField, HP), gone], true) == [Error(MissingField, HP), gone];
    assert [bad] + [gone] == [bad, gone];
  }

  lemma CoveredPassed(derrs: seq<Error>, e: Error)
    requires Covered(derrs, HP) && !Covered(derrs, e.path)
    ensures Uncovered([Error(MissingField, HP), e], derrs) == [e]
  {
    hide Covered;
    var two := [Error(MissingField, HP), e];
    assert two[1..] == [e] && [e][1..] == [];
    assert Uncovered([], derrs) == [];
    assert Uncovered([e], derrs) == [e] + [];
  }

  /** The decoder finds no number in "oops" and no member called name. */
  lemma OopsDecoded(ft: FloatText)
    ensures DecodeObject([Member(HP, JString(Ascii("oops")))], Player(), [], ft)
            == Decoded(Value(Player(), [None, None]), [Error(MalformedField, HP)])
  {
    var door, ms := Player(), [Member(HP, JString(Ascii("oops")))];
    var f, g := door.fields[0], door.fields[1];
    assert HP[0] != NAME[0];
    assert ReadInt64(Ascii("oops")) == None by {
      assert Ascii("oops")[0] == 0x6F;
    }
    assert DecodeSlot(ms, f, [], ft) == Decoded(None, [Error(MalformedField, HP)]);
    assert ms[1..] == [] && Find(ms, NAME) == None;
    assert DecodeSlot(ms, g, [], ft) == Decoded(None, []);
    var none: Option<Cell>, empty: seq<Option<Cell>>, quiet: seq<Error> := None, [], [];
    assert DecodeSlots(ms, door, 2, [], ft) == Decoded(empty, quiet);
    assert [none] + empty == [none] && quiet + quiet == quiet && [none] + [none] == [none, none];
    assert DecodeSlots(ms, door, 1, [], ft) == Decoded([none], quiet);
    assert DecodeSlots(ms, door, 0, [], ft) == Decoded([None, None], [Error(MalformedField, HP)]);
    assert Undeclared(ms, door, []) == [] by { assert FieldIndex(door.fields, HP) == 0; }
  }

  lemma NothingHeld()
    ensures Diagnose(Value(Player(), [None, None]), Player()) == [Error(MissingField, HP), Error(MissingField, NAME)]
  {
    var door := Player();
    var v := Value(door, [None, None]);
    FieldIndexOfField(door.fields, 0) by { assert HP[0] != NAME[0]; }
    FieldIndexOfField(door.fields, 1) by { assert HP[0] != NAME[0]; }
    assert FieldErrors(v, door, 2, []) == [];
    assert FieldErrors(v, door, 1, []) == [Error(MissingField, NAME)];
  }
}
