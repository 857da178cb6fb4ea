/** The order L of the base point is prime, by a chain of primes as for the field. */
module OrderPrime {
  import opened Primality

  lemma Prime5()
    ensures Prime(0x11)
  {
    assert NoDivisorBelow(17, 5);
    Trial(17, 5);
  }

  lemma Root12(pow: nat -> int, m: int, e: nat, x: int) returns (e': nat, x': int)
    requires Known(pow, m, e, x) && m == 0x9f7
    requires x == 0x4
    ensures e' == 0x40 * e + 0x16
    ensures Known(pow, m, e', x') && x' == 0x829
  {
    e', x' := e, x;
    e', x' := Step(pow, m, e', x', 1, 2, 0x200);
    e', x' := Step(pow, m, e', x', 1, 2, 0x7b4);
    e', x' := Step(pow, m, e', x', 2, 4, 0x829);
  }

  lemma Power12(pow: nat -> int, m: int, e: nat, x: int) returns (e': nat, x': int)
    requires Known(pow, m, e, x) && m == 0x9f7
    requires x == 0x4
    ensures e' == 0x400 * e + 0x1f6
    ensures Known(pow, m, e', x') && x' == 0x1
  {
    e', x' := e, x;
    e', x' := Step(pow, m, e', x', 1, 2, 0x200);
    e', x' := Step(pow, m, e', x', 3, 8, 0xeb);
    e', x' := Step(pow, m, e', x', 3, 8, 0x2bb);
    e', x' := Step(pow, m, e', x', 1, 2, 0xfa);
    e', x' := Step(pow, m, e', x', 2, 4, 0x1);
  }

  lemma Checks12(m: int, q: int, r: nat, b: int, inverse: int)
    requires m == 0x9f7
    requires q == 0x11 && r == 0x96
    requires b == 0x829
    requires inverse == 0x46f
    ensures Checks(m, q, r, b, inverse)
  {
  }

  lemma Prime12()
    ensures Prime(0x9f7)
  {
    var m := 0x9f7;
    var q, r, pow := 0x11, 0x96, PowersOf(m);
    var e, b := 2, 4;
    Begin(pow, m, e, b);
    e, b := Root12(pow, m, e, b);
    var f, x := 2, 4;
    Begin(pow, m, f, x);
    f, x := Power12(pow, m, f, x);
    var inverse := 0x46f;
    Checks12(m, q, r, b, inverse);
    Prime5();
    Certified(m, q, r, pow, b, inverse);
  }

  lemma Root21(pow: nat -> int, m: int, e: nat, x: int) returns (e': nat, x': int)
    requires Known(pow, m, e, x) && m == 0x12af21
    requires x == 0x2
    ensures e' == 0x100 * e + 0xe0
    ensures Known(pow, m, e', x') && x' == 0xe103b
  {
    e', x' := e, x;
    e', x' := Step(pow, m, e', x', 3, 8, 0x80);
    e', x' := Step(pow, m, e', x', 2, 4, 0x10bb14);
    e', x' := Step(pow, m, e', x', 0, 1, 0x8ee69);
    e', x' := Step(pow, m, e', x', 0, 1, 0xe103b);
  }

  lemma Power21(pow: nat -> int, m: int, e: nat, x: int) returns (e': nat, x': int)
    requires Known(pow, m, e, x) && m == 0x12af21
    requires x == 0x2
    ensures e' == 0x100000 * e + 0x2af20
    ensures Known(pow, m, e', x') && x' == 0x1
  {
    e', x' := e, x;
    e', x' := Step(pow, m, e', x', 0, 1, 0x10);
    e', x' := Step(pow, m, e', x', 2, 4, 0x40000);
    e', x' := Step(pow, m, e', x', 2, 4, 0x117075);
    e', x' := Step(pow, m, e', x', 2, 4, 0x79e31);
    e', x' := Step(pow, m, e', x', 3, 8, 0xa1892);
    e', x' := Step(pow, m, e', x', 3, 8, 0xb29ad);
    e', x' := Step(pow, m, e', x', 0, 1, 0xe391f);
    e', x' := Step(pow, m, e', x', 2, 4, 0x10973e);
    e', x' := Step(pow, m, e', x', 0, 1, 0x1);
    e', x' := Step(pow, m, e', x', 0, 1, 0x1);
  }

  lemma Checks21(m: int, q: int, r: nat, b: int, inverse: int)
    requires m == 0x12af21
    requires q == 0x9f7 && r == 0x1e0
    requires b == 0xe103b
    requires inverse == 0x10cb57
    ensures Checks(m, q, r, b, inverse)
  {
  }

  lemma Prime21()
    ensures Prime(0x12af21)
  {
    var m := 0x12af21;
    var q, r, pow := 0x9f7, 0x1e0, PowersOf(m);
    var e, b := 1, 2;
    Begin(pow, m, e, b);
    e, b := Root21(pow, m, e, b);
    var f, x := 1, 2;
    Begin(pow, m, f, x);
    f, x := Power21(pow, m, f, x);
    var inverse := 0x10cb57;
    Checks21(m, q, r, b, inverse);
    Prime12();
    Certified(m, q, r, pow, b, inverse);
  }

  lemma Root51A(pow: nat -> int, m: int, e: nat, x: int) returns (e': nat, x': int)
    requires Known(pow, m, e, x) && m == 0x477be711ecedd
    requires x == 0x8
    ensures e' == 0x4000 * e + 0x34db
    ensures Known(pow, m, e', x') && x' == 0x2812b37040403
  {
    e', x' := e, x;
    e', x' := Step(pow, m, e', x', 3, 8, 0x8000);
    e', x' := Step(pow, m, e', x', 1, 2, 0x29d680a68d39b);
    e', x' := Step(pow, m, e', x', 0, 1, 0x2bc4babc770c3);
    e', x' := Step(pow, m, e', x', 3, 8, 0x103b9ea5fcc54);
    e', x' := Step(pow, m, e', x', 1, 2, 0x18da7f825682e);
    e', x' := Step(pow, m, e', x', 2, 4, 0x45d8d6be18e38);
    e', x' := Step(pow, m, e', x', 3, 8, 0x2812b37040403);
  }

  lemma Root51B(pow: nat -> int, m: int, e: nat, x: int) returns (e': nat, x': int)
    requires Known(pow, m, e, x) && m == 0x477be711ecedd
    requires x == 0x2812b37040403
    ensures e' == 0x4000 * e + 0x3f5c
    ensures Known(pow, m, e', x') && x' == 0x4735c3113b127
  {
    e', x' := e, x;
    e', x' := Step(pow, m, e', x', 3, 8, 0x1913e8a53d497);
    e', x' := Step(pow, m, e', x', 3, 8, 0x2cf3d79d4c79e);
    e', x' := Step(pow, m, e', x', 3, 8, 0x17068e29c52ba);
    e', x' := Step(pow, m, e', x', 1, 2, 0x1a18645c842cf);
    e', x' := Step(pow, m, e', x', 1, 2, 0x295902bc23212);
    e', x' := Step(pow, m, e', x', 3, 8, 0xceaf55e8d720);
    e', x' := Step(pow, m, e', x', 0, 1, 0x4735c3113b127);
  }

  lemma Power51A(pow: nat -> int, m: int, e: nat, x: int) returns (e': nat, x': int)
    requires Known(pow, m, e, x) && m == 0x477be711ecedd
    requires x == 0x2
    ensures e' == 0x40000 * e + 0x77be
    ensures Known(pow, m, e', x') && x' == 0x3d00975512c60
  {
    e', x' := e, x;
    e', x' := Step(pow, m, e', x', 0, 1, 0x10);
    e', x' := Step(pow, m, e', x', 1, 2, 0x20000);
    e', x' := Step(pow, m, e', x', 3, 8, 0x1718ef43864e5);
    e', x' := Step(pow, m, e', x', 1, 2, 0x137f8c58513ef);
    e', x' := Step(pow, m, e', x', 3, 8, 0x18cf36b72dab1);
    e', x' := Step(pow, m, e', x', 2, 4, 0x712fe70a92d3);
    e', x' := Step(pow, m, e', x', 3, 8, 0x3969f30980d98);
    e', x' := Step(pow, m, e', x', 3, 8, 0x32fc53d9d9a6e);
    e', x' := Step(pow, m, e', x', 2, 4, 0x3d00975512c60);
  }

  lemma Power51B(pow: nat -> int, m: int, e: nat, x: int) returns (e': nat, x': int)
    requires Known(pow, m, e, x) && m == 0x477be711ecedd
    requires x == 0x3d00975512c60
    ensures e' == 0x10000 * e + 0x711e
    ensures Known(pow, m, e', x') && x' == 0x2410e848d22bb
  {
    e', x' := e, x;
    e', x' := Step(pow, m, e', x', 1, 2, 0x2f49b363b56a6);
    e', x' := Step(pow, m, e', x', 3, 8, 0x6ecf51297a11);
    e', x' := Step(pow, m, e', x', 0, 1, 0x347d15b1e67d5);
    e', x' := Step(pow, m, e', x', 1, 2, 0x2725cb9153800);
    e', x' := Step(pow, m, e', x', 0, 1, 0x2132c6c6f6aae);
    e', x' := Step(pow, m, e', x', 1, 2, 0x380316d5dff2a);
    e', x' := Step(pow, m, e', x', 3, 8, 0x38aef0c2da32f);
    e', x' := Step(pow, m, e', x', 2, 4, 0x2410e848d22bb);
  }

  lemma Power51C(pow: nat -> int, m: int, e: nat, x: int) returns (e': nat, x': int)
    requires Known(pow, m, e, x) && m == 0x477be711ecedd
    requires x == 0x2410e848d22bb
    ensures e' == 0x10000 * e + 0xcedc
    ensures Known(pow, m, e', x') && x' == 0x1
  {
    e', x' := e, x;
    e', x' := Step(pow, m, e', x', 3, 8, 0x1ea0504c0632);
    e', x' := Step(pow, m, e', x', 0, 1, 0xde8e26bb8699);
    e', x' := Step(pow, m, e', x', 3, 8, 0x14e21c233b020);
    e', x' := Step(pow, m, e', x', 2, 4, 0x3a4ecd85eb4ba);
    e', x' := Step(pow, m, e', x', 3, 8, 0x3e0cdd5060706);
    e', x' := Step(pow, m, e', x', 1, 2, 0x2354f98fad680);
    e', x' := Step(pow, m, e', x', 3, 8, 0x173738aadfa52);
    e', x' := Step(pow, m, e', x', 0, 1, 0x1);
  }

  lemma Checks51(m: int, q: int, r: nat, b: int, inverse: int)
    requires m == 0x477be711ecedd
    requires q == 0x12af21 && r == 0x3d36ff5c
    requires b == 0x4735c3113b127
    requires inverse == 0x2cf51ccba75d1
    ensures Checks(m, q, r, b, inverse)
  {
  }

  lemma Prime51()
    ensures Prime(0x477be711ecedd)
  {
    var m := 0x477be711ecedd;
    var q, r, pow := 0x12af21, 0x3d36ff5c, PowersOf(m);
    var e, b := 3, 8;
    Begin(pow, m, e, b);
    e, b := Root51A(pow, m, e, b);
    e, b := Root51B(pow, m, e, b);
    var f, x := 1, 2;
    Begin(pow, m, f, x);
    f, x := Power51A(pow, m, f, x);
    f, x := Power51B(pow, m, f, x);
    f, x := Power51C(pow, m, f, x);
    var inverse := 0x2cf51ccba75d1;
    Checks51(m, q, r, b, inverse);
    Prime21();
    Certified(m, q, r, pow, b, inverse);
  }

  lemma Root62(pow: nat -> int, m: int, e: nat, x: int) returns (e': nat, x': int)
    requires Known(pow, m, e, x) && m == 0x3d89490a0e5537ef
    requires x == 0x8
    ensures e' == 0x400 * e + 0x1c6
    ensures Known(pow, m, e', x') && x' == 0x5c52cd00a1f4ba7
  {
    e', x' := e, x;
    e', x' := Step(pow, m, e', x', 1, 2, 0x2000);
    e', x' := Step(pow, m, e', x', 3, 8, 0x80000000000000);
    e', x' := Step(pow, m, e', x', 0, 1, 0x13b13e905a0913e5);
    e', x' := Step(pow, m, e', x', 1, 2, 0x1e75ec5cec7b6a79);
    e', x' := Step(pow, m, e', x', 2, 4, 0x5c52cd00a1f4ba7);
  }

  lemma Power62A(pow: nat -> int, m: int, e: nat, x: int) returns (e': nat, x': int)
    requires Known(pow, m, e, x) && m == 0x3d89490a0e5537ef
    requires x == 0x8
    ensures e' == 0x100000 * e + 0xd8949
    ensures Known(pow, m, e', x') && x' == 0x3033baa2a7bdac57
  {
    e', x' := e, x;
    e', x' := Step(pow, m, e', x', 3, 8, 0x8000);
    e', x' := Step(pow, m, e', x', 1, 2, 0x2000000000000000);
    e', x' := Step(pow, m, e', x', 2, 4, 0x2d77b9a03135dfb);
    e', x' := Step(pow, m, e', x', 0, 1, 0x2a560162e14b2ea6);
    e', x' := Step(pow, m, e', x', 2, 4, 0x1adc03359f6f21d8);
    e', x' := Step(pow, m, e', x', 1, 2, 0x3c107482afe82a32);
    e', x' := Step(pow, m, e', x', 1, 2, 0x8b2e176c6f8394e);
    e', x' := Step(pow, m, e', x', 0, 1, 0x1ca844d6295bd3a4);
    e', x' := Step(pow, m, e', x', 2, 4, 0x349c11438f43e7e5);
    e', x' := Step(pow, m, e', x', 1, 2, 0x3033baa2a7bdac57);
  }

  lemma Power62B(pow: nat -> int, m: int, e: nat, x: int) returns (e': nat, x': int)
    requires Known(pow, m, e, x) && m == 0x3d89490a0e5537ef
    requires x == 0x3033baa2a7bdac57
    ensures e' == 0x100000 * e + 0xa0e5
    ensures Known(pow, m, e', x') && x' == 0x3c07f87d054b8f16
  {
    e', x' := e, x;
    e', x' := Step(pow, m, e', x', 0, 1, 0x5d0cd2b73372e74);
    e', x' := Step(pow, m, e', x', 0, 1, 0x25165ecbabd12b39);
    e', x' := Step(pow, m, e', x', 2, 4, 0x1af854e5b5dd5c48);
    e', x' := Step(pow, m, e', x', 2, 4, 0x38d24a2dab44796e);
    e', x' := Step(pow, m, e', x', 0, 1, 0x1d02b745ec20c609);
    e', x' := Step(pow, m, e', x', 0, 1, 0x1e47a834ca20a2dd);
    e', x' := Step(pow, m, e', x', 3, 8, 0x126d334387113700);
    e', x' := Step(pow, m, e', x', 2, 4, 0x2079294ecbf1cb62);
    e', x' := Step(pow, m, e', x', 1, 2, 0x616c4141ac74e04);
    e', x' := Step(pow, m, e', x', 1, 2, 0x3c07f87d054b8f16);
  }

  lemma Power62C(pow: nat -> int, m: int, e: nat, x: int) returns (e': nat, x': int)
    requires Known(pow, m, e, x) && m == 0x3d89490a0e5537ef
    requires x == 0x3c07f87d054b8f16
    ensures e' == 0x100000 * e + 0x537ee
    ensures Known(pow, m, e', x') && x' == 0x1
  {
    e', x' := e, x;
    e', x' := Step(pow, m, e', x', 1, 2, 0xf1993d8c1c0544);
    e', x' := Step(pow, m, e', x', 1, 2, 0xc04bfc1af410e78);
    e', x' := Step(pow, m, e', x', 0, 1, 0xce21f2f17f01c46);
    e', x' := Step(pow, m, e', x', 3, 8, 0x2fdc5d19fa52b259);
    e', x' := Step(pow, m, e', x', 1, 2, 0x17b67b460415083d);
    e', x' := Step(pow, m, e', x', 3, 8, 0x2ba22db3dc836763);
    e', x' := Step(pow, m, e', x', 3, 8, 0x3b3d9a446bd6321e);
    e', x' := Step(pow, m, e', x', 2, 4, 0x3450710bff154228);
    e', x' := Step(pow, m, e', x', 3, 8, 0xc75320bd274152d);
    e', x' := Step(pow, m, e', x', 2, 4, 0x1);
  }

  lemma Checks62(m: int, q: int, r: nat, b: int, inverse: int)
    requires m == 0x3d89490a0e5537ef
    requires q == 0x477be711ecedd && r == 0xdc6
    requires b == 0x5c52cd00a1f4ba7
    requires inverse == 0xe0605543c5b9ae3
    ensures Checks(m, q, r, b, inverse)
  {
  }

  lemma Prime62()
    ensures Prime(0x3d89490a0e5537ef)
  {
    var m := 0x3d89490a0e5537ef;
    var q, r, pow := 0x477be711ecedd, 0xdc6, PowersOf(m);
    var e, b := 3, 8;
    Begin(pow, m, e, b);
    e, b := Root62(pow, m, e, b);
    var f, x := 3, 8;
    Begin(pow, m, f, x);
    f, x := Power62A(pow, m, f, x);
    f, x := Power62B(pow, m, f, x);
    f, x := Power62C(pow, m, f, x);
    var inverse := 0xe0605543c5b9ae3;
    Checks62(m, q, r, b, inverse);
    Prime51();
    Certified(m, q, r, pow, b, inverse);
  }

  lemma Root88(pow: nat -> int, m: int, e: nat, x: int) returns (e': nat, x': int)
    requires Known(pow, m, e, x) && m == 0x8e51fa3a480f89f9de5163
    requires x == 0x4
    ensures e' == 0x1000000 * e + 0x5012be
    ensures Known(pow, m, e', x') && x' == 0x43d06a01b28fc1632b40eb
  {
    e', x' := e, x;
    e', x' := Step(pow, m, e', x', 1, 2, 0x200);
    e', x' := Step(pow, m, e', x', 1, 2, 0x2000000000);
    e', x' := Step(pow, m, e', x', 0, 1, 0x1a74e286fa3389740b5cee);
    e', x' := Step(pow, m, e', x', 0, 1, 0x106296d204c47fa1c30d00);
    e', x' := Step(pow, m, e', x', 0, 1, 0x743f84f02c2f9d5906bb29);
    e', x' := Step(pow, m, e', x', 1, 2, 0x6254eb9f6323640014b112);
    e', x' := Step(pow, m, e', x', 0, 1, 0x4a8e8d4c18d4c2ef28dd16);
    e', x' := Step(pow, m, e', x', 2, 4, 0x36e290adea0d2601877756);
    e', x' := Step(pow, m, e', x', 2, 4, 0x8a89765b0f71e90db5212a);
    e', x' := Step(pow, m, e', x', 3, 8, 0x183b962288e9ed655567b5);
    e', x' := Step(pow, m, e', x', 3, 8, 0x5e841c09f42548932f99a6);
    e', x' := Step(pow, m, e', x', 2, 4, 0x43d06a01b28fc1632b40eb);
  }

  lemma Power88A(pow: nat -> int, m: int, e: nat, x: int) returns (e': nat, x': int)
    requires Known(pow, m, e, x) && m == 0x8e51fa3a480f89f9de5163
    requires x == 0x4
    ensures e' == 0x400000 * e + 0xe51fa
    ensures Known(pow, m, e', x') && x' == 0x4f7388784a8e2b0db12d4d
  {
    e', x' := e, x;
    e', x' := Step(pow, m, e', x', 0, 1, 0x100);
    e', x' := Step(pow, m, e', x', 3, 8, 0x800000000);
    e', x' := Step(pow, m, e', x', 2, 4, 0xdc182ff92aa43153d0515);
    e', x' := Step(pow, m, e', x', 1, 2, 0x38c675fed2d973835dc47);
    e', x' := Step(pow, m, e', x', 1, 2, 0x85f3a41a980b17867e82d3);
    e', x' := Step(pow, m, e', x', 0, 1, 0x2977831f646ac033a03262);
    e', x' := Step(pow, m, e', x', 1, 2, 0x2e49aabfcb61c4183f6e06);
    e', x' := Step(pow, m, e', x', 3, 8, 0x4c45e29d534e82765168d9);
    e', x' := Step(pow, m, e', x', 3, 8, 0x17a0c95cc0e8e3f23081b7);
    e', x' := Step(pow, m, e', x', 2, 4, 0x5386ec1398e57682a533b0);
    e', x' := Step(pow, m, e', x', 2, 4, 0x4f7388784a8e2b0db12d4d);
  }

  lemma Power88B(pow: nat -> int, m: int, e: nat, x: int) returns (e': nat, x': int)
    requires Known(pow, m, e, x) && m == 0x8e51fa3a480f89f9de5163
    requires x == 0x4f7388784a8e2b0db12d4d
    ensures e' == 0x400000 * e + 0xe9203
    ensures Known(pow, m, e', x') && x' == 0xbf187c3b787914b15122f
  {
    e', x' := e, x;
    e', x' := Step(pow, m, e', x', 0, 1, 0x970ec33241919b2086ebb);
    e', x' := Step(pow, m, e', x', 3, 8, 0x6ebf50d0b858c67a0c487b);
    e', x' := Step(pow, m, e', x', 2, 4, 0x3dae6f56e4cce22fedbfd);
    e', x' := Step(pow, m, e', x', 2, 4, 0x62a7e115202f5a365b6418);
    e', x' := Step(pow, m, e', x', 1, 2, 0x1436dc979a4add46956c);
    e', x' := Step(pow, m, e', x', 0, 1, 0x8a1d057f464f1d3d6b4f51);
    e', x' := Step(pow, m, e', x', 2, 4, 0x2fdcb64651f03ffcf134d2);
    e', x' := Step(pow, m, e', x', 0, 1, 0x6a0a95f07f4c7457c3941b);
    e', x' := Step(pow, m, e', x', 0, 1, 0x1f637ed22f7c25bec51748);
    e', x' := Step(pow, m, e', x', 0, 1, 0x127a2886a0adc68d1ba0fb);
    e', x' := Step(pow, m, e', x', 3, 8, 0xbf187c3b787914b15122f);
  }

  lemma Power88C(pow: nat -> int, m: int, e: nat, x: int) returns (e': nat, x': int)
    requires Known(pow, m, e, x) && m == 0x8e51fa3a480f89f9de5163
    requires x == 0xbf187c3b787914b15122f
    ensures e' == 0x400000 * e + 0x389f9d
    ensures Known(pow, m, e', x') && x' == 0x244c1fac50c379053b71f1
  {
    e', x' := e, x;
    e', x' := Step(pow, m, e', x', 3, 8, 0x3d2d2b345caa227c9ffe31);
    e', x' := Step(pow, m, e', x', 2, 4, 0x341ff9a96f6a84d7e3474e);
    e', x' := Step(pow, m, e', x', 0, 1, 0x8ab3efe4032c12ea833cb3);
    e', x' := Step(pow, m, e', x', 2, 4, 0x66048d66e9621d85914fc9);
    e', x' := Step(pow, m, e', x', 1, 2, 0x123f234f441ca9ed05544b);
    e', x' := Step(pow, m, e', x', 3, 8, 0x34d563b2e0f1ac00ca908d);
    e', x' := Step(pow, m, e', x', 3, 8, 0x40df06cb3bbcc95e71213a);
    e', x' := Step(pow, m, e', x', 2, 4, 0x6ac1a5720bc5c575797543);
    e', x' := Step(pow, m, e', x', 1, 2, 0x6ce40075badb38177b3930);
    e', x' := Step(pow, m, e', x', 3, 8, 0x590200e36016a23695041b);
    e', x' := Step(pow, m, e', x', 1, 2, 0x244c1fac50c379053b71f1);
  }

  lemma Power88D(pow: nat -> int, m: int, e: nat, x: int) returns (e': nat, x': int)
    requires Known(pow, m, e, x) && m == 0x8e51fa3a480f89f9de5163
    requires x == 0x244c1fac50c379053b71f1
    ensures e' == 0x100000 * e + 0xe5162
    ensures Known(pow, m, e', x') && x' == 0x1
  {
    e', x' := e, x;
    e', x' := Step(pow, m, e', x', 3, 8, 0x31c0aafe3e4683bace20bf);
    e', x' := Step(pow, m, e', x', 2, 4, 0x670f296d1b9fa1d37ae2e0);
    e', x' := Step(pow, m, e', x', 1, 2, 0x2f116d04070c9170f96dcd);
    e', x' := Step(pow, m, e', x', 1, 2, 0x2e9e983d78bdddf4508ac8);
    e', x' := Step(pow, m, e', x', 0, 1, 0x87a2426ace6cd36477d58f);
    e', x' := Step(pow, m, e', x', 1, 2, 0x3419d157539cd2bc522618);
    e', x' := Step(pow, m, e', x', 1, 2, 0x6d9e652ad2d1533a972396);
    e', x' := Step(pow, m, e', x', 2, 4, 0x156542d174031ff3f5c6b4);
    e', x' := Step(pow, m, e', x', 0, 1, 0x22e8d692e5469dec547de1);
    e', x' := Step(pow, m, e', x', 2, 4, 0x1);
  }

  lemma Checks88(m: int, q: int, r: nat, b: int, inverse: int)
    requires m == 0x8e51fa3a480f89f9de5163
    requires q == 0x3d89490a0e5537ef && r == 0x25012be
    requires b == 0x43d06a01b28fc1632b40eb
    requires inverse == 0x7f9d1382843bc75f2bbbb0
    ensures Checks(m, q, r, b, inverse)
  {
  }

  lemma Prime88()
    ensures Prime(0x8e51fa3a480f89f9de5163)
  {
    var m := 0x8e51fa3a480f89f9de5163;
    var q, r, pow := 0x3d89490a0e5537ef, 0x25012be, PowersOf(m);
    var e, b := 2, 4;
    Begin(pow, m, e, b);
    e, b := Root88(pow, m, e, b);
    var f, x := 2, 4;
    Begin(pow, m, f, x);
    f, x := Power88A(pow, m, f, x);
    f, x := Power88B(pow, m, f, x);
    f, x := Power88C(pow, m, f, x);
    f, x := Power88D(pow, m, f, x);
    var inverse := 0x7f9d1382843bc75f2bbbb0;
    Checks88(m, q, r, b, inverse);
    Prime62();
    Certified(m, q, r, pow, b, inverse);
  }

  lemma Root134A(pow: nat -> int, m: int, e: nat, x: int) returns (e': nat, x': int)
    requires Known(pow, m, e, x) && m == 0x3a0fc367dcf0ff0a5a1db0b1b7c3093f33
    requires x == 0x2
    ensures e' == 0x1000000 * e + 0xa1c166
    ensures Known(pow, m, e', x') && x' == 0x1bf9e530dd18bbcec4cb9522c3625ffd42
  {
    e', x' := e, x;
    e', x' := Step(pow, m, e', x', 2, 4, 0x40);
    e', x' := Step(pow, m, e', x', 2, 4, 0x4000000);
    e', x' := Step(pow, m, e', x', 0, 1, 0x100000000000000000000000000);
    e', x' := Step(pow, m, e', x', 1, 2, 0x39f4a2f3d9f444bd1bb07f75e9f7a62b4b);
    e', x' := Step(pow, m, e', x', 3, 8, 0x396017ec5fe7f2898124ae2da509413bd7);
    e', x' := Step(pow, m, e', x', 0, 1, 0x3546ccd4f2966a2015416008340b0943eb);
    e', x' := Step(pow, m, e', x', 0, 1, 0x31e8f1349b0b2b7374bebf020a631644b5);
    e', x' := Step(pow, m, e', x', 1, 2, 0x7bd0fb9af14fbefc25005d55c46cdcf6);
    e', x' := Step(pow, m, e', x', 1, 2, 0xa4be7f579ea410797eed54a12d6c08a7c);
    e', x' := Step(pow, m, e', x', 2, 4, 0xbf3d1957f1c267413d868f2d3611e2127);
    e', x' := Step(pow, m, e', x', 1, 2, 0xba204b26404bf84f36fdbb16ebc525604);
    e', x' := Step(pow, m, e', x', 2, 4, 0x1bf9e530dd18bbcec4cb9522c3625ffd42);
  }

  lemma Root134B(pow: nat -> int, m: int, e: nat, x: int) returns (e': nat, x': int)
    requires Known(pow, m, e, x) && m == 0x3a0fc367dcf0ff0a5a1db0b1b7c3093f33
    requires x == 0x1bf9e530dd18bbcec4cb9522c3625ffd42
    ensures e' == 0x400000 * e + 0x3b73a6
    ensures Known(pow, m, e', x') && x' == 0x1ae2c2ca6b6676caa5c3933f166ac4090c
  {
    e', x' := e, x;
    e', x' := Step(pow, m, e', x', 3, 8, 0x24c3c2221f30ae8bf9888c9766f623af38);
    e', x' := Step(pow, m, e', x', 2, 4, 0x2b305b690bb22fe2437e54139cfc2ab012);
    e', x' := Step(pow, m, e', x', 3, 8, 0x10566007adfee76ffbba0513094894bbd7);
    e', x' := Step(pow, m, e', x', 1, 2, 0x127e6b56de661fb2e1b1b810824b2203ff);
    e', x' := Step(pow, m, e', x', 3, 8, 0xf6e910dae538a419d6b1ed66538cc9c26);
    e', x' := Step(pow, m, e', x', 0, 1, 0x222db58da9c2188663d9fec5e43f57cb34);
    e', x' := Step(pow, m, e', x', 3, 8, 0x3670ac32de02b2b66529ce18ff8ea0ca73);
    e', x' := Step(pow, m, e', x', 2, 4, 0x194a50590af4db732cf9df1acf89ca17c8);
    e', x' := Step(pow, m, e', x', 2, 4, 0x106ef48637eb6783ff424e1f2aad82cbaf);
    e', x' := Step(pow, m, e', x', 1, 2, 0xfcfa47a120b7fa49be0d8b3e164f80474);
    e', x' := Step(pow, m, e', x', 2, 4, 0x1ae2c2ca6b6676caa5c3933f166ac4090c);
  }

  lemma Power134A(pow: nat -> int, m: int, e: nat, x: int) returns (e': nat, x': int)
    requires Known(pow, m, e, x) && m == 0x3a0fc367dcf0ff0a5a1db0b1b7c3093f33
    requires x == 0x8
    ensures e' == 0x400000 * e + 0x283f0d
    ensures Known(pow, m, e', x') && x' == 0xc45331a6e5cb102852f34713ce9688a3e
  {
    e', x' := e, x;
    e', x' := Step(pow, m, e', x', 2, 4, 0x4000);
    e', x' := Step(pow, m, e', x', 2, 4, 0x400000000000000);
    e', x' := Step(pow, m, e', x', 0, 1, 0x4c245bf482d64744bb8805fef3536d1ff);
    e', x' := Step(pow, m, e', x', 0, 1, 0x22647f06f9028a71c1caa53db47c486c40);
    e', x' := Step(pow, m, e', x', 3, 8, 0x180e8288367e05f0adc4bc81b452d6ed14);
    e', x' := Step(pow, m, e', x', 3, 8, 0x27313dd838a322e18c500fe2afd46dcdcc);
    e', x' := Step(pow, m, e', x', 3, 8, 0x1e8aa9594ccfe7d3e121bf33dc0f9a40e9);
    e', x' := Step(pow, m, e', x', 0, 1, 0x18d1c5c0a7431a9b3f10d4969b39716813);
    e', x' := Step(pow, m, e', x', 0, 1, 0xfb37d1726add0bfacd4b76a69b7bb04d7);
    e', x' := Step(pow, m, e', x', 3, 8, 0xbb139af2acda13a3606e72037520f2b20);
    e', x' := Step(pow, m, e', x', 1, 2, 0xc45331a6e5cb102852f34713ce9688a3e);
  }

  lemma Power134B(pow: nat -> int, m: int, e: nat, x: int) returns (e': nat, x': int)
    requires Known(pow, m, e, x) && m == 0x3a0fc367dcf0ff0a5a1db0b1b7c3093f33
    requires x == 0xc45331a6e5cb102852f34713ce9688a3e
    ensures e' == 0x400000 * e + 0x27dcf0
    ensures Known(pow, m, e', x') && x' == 0x15eedbb5fab12c8f75e79cda9ac381b462
  {
    e', x' := e, x;
    e', x' := Step(pow, m, e', x', 2, 4, 0x88581485cac63a5b8edda99102ac83481);
    e', x' := Step(pow, m, e', x', 1, 2, 0x2d0a33528eaeb43dc5c887b5fd19571955);
    e', x' := Step(pow, m, e', x', 3, 8, 0x1486a1af37ddd08a2cf317da2567a0a90);
    e', x' := Step(pow, m, e', x', 3, 8, 0x202de5782408c0010defba713b9dfc9aa9);
    e', x' := Step(pow, m, e', x', 1, 2, 0x244539567ba700fed739cc6757d67482b3);
    e', x' := Step(pow, m, e', x', 3, 8, 0x2e388c6d36801431a725793163f23ab78b);
    e', x' := Step(pow, m, e', x', 0, 1, 0x31d31ecd1f3aad42e03d905b3aef79d79b);
    e', x' := Step(pow, m, e', x', 3, 8, 0xa966dbb59970fb8dc108cb9c5fb9ee9b9);
    e', x' := Step(pow, m, e', x', 3, 8, 0xe8db97061aa95c9540af67c00ba9f0fcd);
    e', x' := Step(pow, m, e', x', 0, 1, 0x9094e3f79c4df79fae375a6fc9068ad40);
    e', x' := Step(pow, m, e', x', 0, 1, 0x15eedbb5fab12c8f75e79cda9ac381b462);
  }

  lemma Power134C(pow: nat -> int, m: int, e: nat, x: int) returns (e': nat, x': int)
    requires Known(pow, m, e, x) && m == 0x3a0fc367dcf0ff0a5a1db0b1b7c3093f33
    requires x == 0x15eedbb5fab12c8f75e79cda9ac381b462
    ensures e' == 0x400000 * e + 0x3fc296
    ensures Known(pow, m, e', x') && x' == 0x147c9c06065ff1f77f5a57af52f680550
  {
    e', x' := e, x;
    e', x' := Step(pow, m, e', x', 3, 8, 0x31febdb3f3148e9101e3704b58ae610ff0);
    e', x' := Step(pow, m, e', x', 3, 8, 0x1f9f60f27df863470f9a5af028d837d819);
    e', x' := Step(pow, m, e', x', 3, 8, 0x562e7225759ea8d33df56cce07f98dcf9);
    e', x' := Step(pow, m, e', x', 3, 8, 0x376bc29367cf8f72dc99b2c94e8c4f06ac);
    e', x' := Step(pow, m, e', x', 0, 1, 0x18a85c109555b69d036aa2f27a8fa55261);
    e', x' := Step(pow, m, e', x', 0, 1, 0x2d3389f0d18f360911e60b55fc82dae884);
    e', x' := Step(pow, m, e', x', 2, 4, 0x2857ceec5a18f3267b00d1a9b46a62928);
    e', x' := Step(pow, m, e', x', 2, 4, 0x2c6296b297679b8efe838a12b00b4b2f8a);
    e', x' := Step(pow, m, e', x', 1, 2, 0x225091a1a47ade858c3f7beef8c5fe4b40);
    e', x' := Step(pow, m, e', x', 1, 2, 0x194f776ec114636eedb3957a699cac399f);
    e', x' := Step(pow, m, e', x', 2, 4, 0x147c9c06065ff1f77f5a57af52f680550);
  }

  lemma Power134D(pow: nat -> int, m: int, e: nat, x: int) returns (e': nat, x': int)
    requires Known(pow, m, e, x) && m == 0x3a0fc367dcf0ff0a5a1db0b1b7c3093f33
    requires x == 0x147c9c06065ff1f77f5a57af52f680550
    ensures e' == 0x400000 * e + 0x21db0b
    ensures Known(pow, m, e', x') && x' == 0x97bd350a4db0c15de4973a88e40c5a9d7
  {
    e', x' := e, x;
    e', x' := Step(pow, m, e', x', 2, 4, 0xa2b42e24ada0eb5629ed37eb2ec3fcc5);
    e', x' := Step(pow, m, e', x', 0, 1, 0xf21f0db08f91a4668c7a5f4396095067e);
    e', x' := Step(pow, m, e', x', 1, 2, 0x371d03b3d686c578b5735edd3cc65e355);
    e', x' := Step(pow, m, e', x', 3, 8, 0x2b86fe68affac8141b270264579f7654ba);
    e', x' := Step(pow, m, e', x', 1, 2, 0x290661c70262979aa9e68f08f9c79dc42f);
    e', x' := Step(pow, m, e', x', 2, 4, 0x20198b273dac0f19ec28700d64d29fab04);
    e', x' := Step(pow, m, e', x', 3, 8, 0xfdc95ff7f5f17dcb40f9be4ba1174498a);
    e', x' := Step(pow, m, e', x', 0, 1, 0x29e4c795bf7a030302a560705a34408b50);
    e', x' := Step(pow, m, e', x', 0, 1, 0x2f8c83f2bb35a5beecc874c20536144a83);
    e', x' := Step(pow, m, e', x', 2, 4, 0xacbf227c962e831d66a555792b20db86a);
    e', x' := Step(pow, m, e', x', 3, 8, 0x97bd350a4db0c15de4973a88e40c5a9d7);
  }

  lemma Power134E(pow: nat -> int, m: int, e: nat, x: int) returns (e': nat, x': int)
    requires Known(pow, m, e, x) && m == 0x3a0fc367dcf0ff0a5a1db0b1b7c3093f33
    requires x == 0x97bd350a4db0c15de4973a88e40c5a9d7
    ensures e' == 0x400000 * e + 0x6df0c
    ensures Known(pow, m, e', x') && x' == 0x19c77f056573f98cc9113ad33345788dcb
  {
    e', x' := e, x;
    e', x' := Step(pow, m, e', x', 0, 1, 0x4f2256b123b77f6ba5430e5cc479c72d0);
    e', x' := Step(pow, m, e', x', 1, 2, 0xc49342d636b29f179a77b412d4af75329);
    e', x' := Step(pow, m, e', x', 2, 4, 0x2a3e96decd8f2696174552389c9a33a663);
    e', x' := Step(pow, m, e', x', 3, 8, 0x302b80c22769cb1c4e6e60109bba83844c);
    e', x' := Step(pow, m, e', x', 1, 2, 0x29d58324367fcc3ed931296218a7c44dfb);
    e', x' := Step(pow, m, e', x', 3, 8, 0x33ae5c2b3b5d4918330d116908ebd56464);
    e', x' := Step(pow, m, e', x', 3, 8, 0x18ada5978172a7ad76b42e90dce8070fe);
    e', x' := Step(pow, m, e', x', 0, 1, 0x240a0fdf185e3c78c05be5bb3f264285ef);
    e', x' := Step(pow, m, e', x', 0, 1, 0x2e1725db62e0d277c15c3e4576c4658e08);
    e', x' := Step(pow, m, e', x', 3, 8, 0x2bade27cc358aaa00a8234165cb25e8d1a);
    e', x' := Step(pow, m, e', x', 0, 1, 0x19c77f056573f98cc9113ad33345788dcb);
  }

  lemma Power134F(pow: nat -> int, m: int, e: nat, x: int) returns (e': nat, x': int)
    requires Known(pow, m, e, x) && m == 0x3a0fc367dcf0ff0a5a1db0b1b7c3093f33
    requires x == 0x19c77f056573f98cc9113ad33345788dcb
    ensures e' == 0x400000 * e + 0x93f32
    ensures Known(pow, m, e', x') && x' == 0x1
  {
    e', x' := e, x;
    e', x' := Step(pow, m, e', x', 0, 1, 0x23a67b681069e5e83b50972727074e494);
    e', x' := Step(pow, m, e', x', 2, 4, 0xf9f1c1bf9367f27a6deb9cccdf66bcc8d);
    e', x' := Step(pow, m, e', x', 1, 2, 0x20f28c4634480b803640b633b70eaf2250);
    e', x' := Step(pow, m, e', x', 0, 1, 0x2d07887ed538968d75a7aee5d4d35d420);
    e', x' := Step(pow, m, e', x', 3, 8, 0x157a075d3b3087fa471185500eb14dc1c3);
    e', x' := Step(pow, m, e', x', 3, 8, 0x20d0cbe71baccbc1b2890ef68b5b025de3);
    e', x' := Step(pow, m, e', x', 3, 8, 0x39c7e10bf418c33540db3e4974305a7de);
    e', x' := Step(pow, m, e', x', 0, 1, 0x1164bcde59c425ed3e5cf84d8296156959);
    e', x' := Step(pow, m, e', x', 3, 8, 0x3815eb3580012cf93e39ccc583d7f652c0);
    e', x' := Step(pow, m, e', x', 0, 1, 0x35c046cc0c92f44c09adea57a6d59d65ff);
    e', x' := Step(pow, m, e', x', 2, 4, 0x1);
  }

  lemma Checks134(m: int, q: int, r: nat, b: int, inverse: int)
    requires m == 0x3a0fc367dcf0ff0a5a1db0b1b7c3093f33
    requires q == 0x8e51fa3a480f89f9de5163 && r == 0x687059bb73a6
    requires b == 0x1ae2c2ca6b6676caa5c3933f166ac4090c
    requires inverse == 0x301ca9f38446aff6c3063f39e6ef47be52
    ensures Checks(m, q, r, b, inverse)
  {
  }

  lemma Prime134()
    ensures Prime(0x3a0fc367dcf0ff0a5a1db0b1b7c3093f33)
  {
    var m := 0x3a0fc367dcf0ff0a5a1db0b1b7c3093f33;
    var q, r, pow := 0x8e51fa3a480f89f9de5163, 0x687059bb73a6, PowersOf(m);
    var e, b := 1, 2;
    Begin(pow, m, e, b);
    e, b := Root134A(pow, m, e, b);
    e, b := Root134B(pow, m, e, b);
    var f, x := 3, 8;
    Begin(pow, m, f, x);
    f, x := Power134A(pow, m, f, x);
    f, x := Power134B(pow, m, f, x);
    f, x := Power134C(pow, m, f, x);
    f, x := Power134D(pow, m, f, x);
    f, x := Power134E(pow, m, f, x);
    f, x := Power134F(pow, m, f, x);
    var inverse := 0x301ca9f38446aff6c3063f39e6ef47be52;
    Checks134(m, q, r, b, inverse);
    Prime88();
    Certified(m, q, r, pow, b, inverse);
  }

  lemma Root138(pow: nat -> int, m: int, e: nat, x: int) returns (e': nat, x': int)
    requires Known(pow, m, e, x) && m == 0x32cdcafae152df290ed9fa9b80caa8174cb
    requires x == 0x8
    ensures e' == 0x4 * e + 0x2
    ensures Known(pow, m, e', x') && x' == 0x4000
  {
    e', x' := e, x;
    e', x' := Step(pow, m, e', x', 2, 4, 0x4000);
  }

  lemma Power138A(pow: nat -> int, m: int, e: nat, x: int) returns (e': nat, x': int)
    requires Known(pow, m, e, x) && m == 0x32cdcafae152df290ed9fa9b80caa8174cb
    requires x == 0x8
    ensures e' == 0x1000000 * e + 0x2cdcaf
    ensures Known(pow, m, e', x') && x' == 0x1a45edf11265c70705d61a54dff33a80810
  {
    e', x' := e, x;
    e', x' := Step(pow, m, e', x', 0, 1, 0x1000);
    e', x' := Step(pow, m, e', x', 2, 4, 0x4000000000000);
    e', x' := Step(pow, m, e', x', 3, 8, 0xcec07108d69a04256e9da344004cfb2eb7);
    e', x' := Step(pow, m, e', x', 0, 1, 0x1cc27d3c1528c687e70c140e837daf80e86);
    e', x' := Step(pow, m, e', x', 3, 8, 0x1ff6bb0223347fb1546711201c6ffbccd4e);
    e', x' := Step(pow, m, e', x', 1, 2, 0x1430d32b8dcaae76da4c931dc6647665a6a);
    e', x' := Step(pow, m, e', x', 3, 8, 0x84ceee1e3a5d49984d02bc702d90968c53);
    e', x' := Step(pow, m, e', x', 0, 1, 0x20ef80a0b654a2af85b33b5746905b17321);
    e', x' := Step(pow, m, e', x', 2, 4, 0x22182d7a923348203cb188eec81c9632ffc);
    e', x' := Step(pow, m, e', x', 2, 4, 0x234123a6424402fd364d2a7b7b58ccbfea6);
    e', x' := Step(pow, m, e', x', 3, 8, 0x2e0dfa55e31139f68e95a2d095118076301);
    e', x' := Step(pow, m, e', x', 3, 8, 0x1a45edf11265c70705d61a54dff33a80810);
  }

  lemma Power138B(pow: nat -> int, m: int, e: nat, x: int) returns (e': nat, x': int)
    requires Known(pow, m, e, x) && m == 0x32cdcafae152df290ed9fa9b80caa8174cb
    requires x == 0x1a45edf11265c70705d61a54dff33a80810
    ensures e' == 0x1000000 * e + 0xae152d
    ensures Known(pow, m, e', x') && x' == 0xdd41d92a99a44ad250c508ec214f8bbf7c
  {
    e', x' := e, x;
    e', x' := Step(pow, m, e', x', 2, 4, 0x27f88e23b756af5309cc379e053e2d158ee);
    e', x' := Step(pow, m, e', x', 2, 4, 0x12b9f9853d5cd91df86f290e2737c5b14d1);
    e', x' := Step(pow, m, e', x', 3, 8, 0x2aa5069dda5698b570d85306ca151476f5b);
    e', x' := Step(pow, m, e', x', 2, 4, 0x1f13e5d37d9c693f72358cdd069f45a4833);
    e', x' := Step(pow, m, e', x', 0, 1, 0x28dfb2fd2b26bd7311c31b5162efa3ffe28);
    e', x' := Step(pow, m, e', x', 1, 2, 0x254b88384d672fb8df7a43ae5ab5b8967eb);
    e', x' := Step(pow, m, e', x', 1, 2, 0x16946b5cfad275d373b1667ff6548d04e34);
    e', x' := Step(pow, m, e', x', 1, 2, 0xe5dffd80ce56e18e65a7f34cffbd1ba978);
    e', x' := Step(pow, m, e', x', 0, 1, 0x19b8e88fd8e77aecff8cea7b419e0674694);
    e', x' := Step(pow, m, e', x', 2, 4, 0xd23359a6e298ec9b80b703d21571025675);
    e', x' := Step(pow, m, e', x', 3, 8, 0x25ea8e582100de61fe84cba2f8b819d424a);
    e', x' := Step(pow, m, e', x', 1, 2, 0xdd41d92a99a44ad250c508ec214f8bbf7c);
  }

  lemma Power138C(pow: nat -> int, m: int, e: nat, x: int) returns (e': nat, x': int)
    requires Known(pow, m, e, x) && m == 0x32cdcafae152df290ed9fa9b80caa8174cb
    requires x == 0xdd41d92a99a44ad250c508ec214f8bbf7c
    ensures e' == 0x400000 * e + 0x3ca43b
    ensures Known(pow, m, e', x') && x' == 0x1cde3f3ec7715bc35632799cba29696fd38
  {
    e', x' := e, x;
    e', x' := Step(pow, m, e', x', 3, 8, 0x18bc614ed8f542775f9c1a416d696eba066);
    e', x' := Step(pow, m, e', x', 3, 8, 0x8ed31667058b30ef59ade18af336ee86fe);
    e', x' := Step(pow, m, e', x', 0, 1, 0x26f77f632a168676dc54b1323ac81cce51a);
    e', x' := Step(pow, m, e', x', 2, 4, 0x1b737776c299c4b706050a9964d3a9149fa);
    e', x' := Step(pow, m, e', x', 2, 4, 0x830acde435a7c5a72d15cbd7ec88455f72);
    e', x' := Step(pow, m, e', x', 1, 2, 0x2e6dadace0bd36a655e15be95c4999c24b0);
    e', x' := Step(pow, m, e', x', 0, 1, 0x2a6d56ea81ab133710311d863cf821a4629);
    e', x' := Step(pow, m, e', x', 0, 1, 0x1d243a609b3b6d14f949a199b6a9bdc9229);
    e', x' := Step(pow, m, e', x', 3, 8, 0x2be7dafb2faaf00025313a5150ca0951297);
    e', x' := Step(pow, m, e', x', 2, 4, 0x32c00797ca13e1af8352c737ec5ce8d03a0);
    e', x' := Step(pow, m, e', x', 3, 8, 0x1cde3f3ec7715bc35632799cba29696fd38);
  }

  lemma Power138D(pow: nat -> int, m: int, e: nat, x: int) returns (e': nat, x': int)
    requires Known(pow, m, e, x) && m == 0x32cdcafae152df290ed9fa9b80caa8174cb
    requires x == 0x1cde3f3ec7715bc35632799cba29696fd38
    ensures e' == 0x400000 * e + 0x19fa9b
    ensures Known(pow, m, e', x') && x' == 0x321c1cb96362f3f329746289ba5f66ec26e
  {
    e', x' := e, x;
    e', x' := Step(pow, m, e', x', 1, 2, 0x2de9b0699ae3b2cc35b3e39651bfa3233d3);
    e', x' := Step(pow, m, e', x', 2, 4, 0x1b6bad7748ea5cf47a8a845731ea2a4f391);
    e', x' := Step(pow, m, e', x', 1, 2, 0x1b73faf65ea3b8a45fad19efebfb03ee34e);
    e', x' := Step(pow, m, e', x', 3, 8, 0x158b6bc4a62cd83ad8fe44d085d8524786);
    e', x' := Step(pow, m, e', x', 3, 8, 0x2bb3f191f842657570631cd5e82cae51ca8);
    e', x' := Step(pow, m, e', x', 2, 4, 0x873e2ce1128187949769bbacff678fa32a);
    e', x' := Step(pow, m, e', x', 2, 4, 0x19d1cfce39e54e9cd818319ca8682224e8a);
    e', x' := Step(pow, m, e', x', 2, 4, 0x1974dcad00a048024d78a6ad64f0a9d6706);
    e', x' := Step(pow, m, e', x', 1, 2, 0x2f6f971e46a32ec307f0a6ffc977556285a);
    e', x' := Step(pow, m, e', x', 2, 4, 0x179ec3669a58d5a95d3150cfdd0aa0af384);
    e', x' := Step(pow, m, e', x', 3, 8, 0x321c1cb96362f3f329746289ba5f66ec26e);
  }

  lemma Power138E(pow: nat -> int, m: int, e: nat, x: int) returns (e': nat, x': int)
    requires Known(pow, m, e, x) && m == 0x32cdcafae152df290ed9fa9b80caa8174cb
    requires x == 0x321c1cb96362f3f329746289ba5f66ec26e
    ensures e' == 0x400000 * e + 0x2032aa
    ensures Known(pow, m, e', x') && x' == 0xeec4b4d1b2f48ff202221e23308cd054dd
  {
    e', x' := e, x;
    e', x' := Step(pow, m, e', x', 2, 4, 0x11f54bbe8cc8621b53bed54a9a70a3bb5ba);
    e', x' := Step(pow, m, e', x', 0, 1, 0x2614db8e2f5d488c70fab0895889fe65430);
    e', x' := Step(pow, m, e', x', 0, 1, 0x9892870b2c42390d3d08f0ca8abd027b91);
    e', x' := Step(pow, m, e', x', 0, 1, 0x22a4e00330eb1ac97f564bc89ce7e38840);
    e', x' := Step(pow, m, e', x', 3, 8, 0x1ecb5adad88f9eee08f6ad878b60a35764);
    e', x' := Step(pow, m, e', x', 0, 1, 0x62b9bb4e5c21862c9d32750963c4fe9aaa);
    e', x' := Step(pow, m, e', x', 2, 4, 0x21a327d662f1dde4974011979b7e85abd3d);
    e', x' := Step(pow, m, e', x', 2, 4, 0x2654955a0cb2d213877225922f634938655);
    e', x' := Step(pow, m, e', x', 2, 4, 0x65360cef0cbaa1aed41378b5f97336f0f1);
    e', x' := Step(pow, m, e', x', 2, 4, 0xb27ce908892a1f5e39a86e0c18b16f1ac1);
    e', x' := Step(pow, m, e', x', 2, 4, 0xeec4b4d1b2f48ff202221e23308cd054dd);
  }

  lemma Power138F(pow: nat -> int, m: int, e: nat, x: int) returns (e': nat, x': int)
    requires Known(pow, m, e, x) && m == 0x32cdcafae152df290ed9fa9b80caa8174cb
    requires x == 0xeec4b4d1b2f48ff202221e23308cd054dd
    ensures e' == 0x400000 * e + 0x174ca
    ensures Known(pow, m, e', x') && x' == 0x1
  {
    e', x' := e, x;
    e', x' := Step(pow, m, e', x', 0, 1, 0x11dd121fe332fbd2d3eb76eb06270c59761);
    e', x' := Step(pow, m, e', x', 0, 1, 0x1b57d39bdefe45d282d9ab4044d0f8664a6);
    e', x' := Step(pow, m, e', x', 1, 2, 0x894486865a48522b98dfee0ad00074d993);
    e', x' := Step(pow, m, e', x', 1, 2, 0x2d3bf16e8f0d1c3ca9bcff9a5b2c7203333);
    e', x' := Step(pow, m, e', x', 3, 8, 0x217e96b10f5a36326bff84a88cf5d53efc7);
    e', x' := Step(pow, m, e', x', 1, 2, 0x14d516c2afe9b7c12cbe80b667f86e67b39);
    e', x' := Step(pow, m, e', x', 0, 1, 0x21b62e8d6f71b7edeaf475e3e6df3c15ee);
    e', x' := Step(pow, m, e', x', 3, 8, 0x269be3319f6a38c4658f29bace1415949);
    e', x' := Step(pow, m, e', x', 0, 1, 0x1afe18db381deb3799961f7298109060f);
    e', x' := Step(pow, m, e', x', 2, 4, 0x13b095d47446f7c79e59ebbf9ad860a127d);
    e', x' := Step(pow, m, e', x', 2, 4, 0x1);
  }

  lemma Checks138(m: int, q: int, r: nat, b: int, inverse: int)
    requires m == 0x32cdcafae152df290ed9fa9b80caa8174cb
    requires q == 0x3a0fc367dcf0ff0a5a1db0b1b7c3093f33 && r == 0xe
    requires b == 0x4000
    requires inverse == 0x114761f57a17276184231256cbd81b2ad93
    ensures Checks(m, q, r, b, inverse)
  {
  }

  lemma Prime138()
    ensures Prime(0x32cdcafae152df290ed9fa9b80caa8174cb)
  {
    var m := 0x32cdcafae152df290ed9fa9b80caa8174cb;
    var q, r, pow := 0x3a0fc367dcf0ff0a5a1db0b1b7c3093f33, 0xe, PowersOf(m);
    var e, b := 3, 8;
    Begin(pow, m, e, b);
    e, b := Root138(pow, m, e, b);
    var f, x := 3, 8;
    Begin(pow, m, f, x);
    f, x := Power138A(pow, m, f, x);
    f, x := Power138B(pow, m, f, x);
    f, x := Power138C(pow, m, f, x);
    f, x := Power138D(pow, m, f, x);
    f, x := Power138E(pow, m, f, x);
    f, x := Power138F(pow, m, f, x);
    var inverse := 0x114761f57a17276184231256cbd81b2ad93;
    Checks138(m, q, r, b, inverse);
    Prime134();
    Certified(m, q, r, pow, b, inverse);
  }

  lemma Root253A(pow: nat -> int, m: int, e: nat, x: int) returns (e': nat, x': int)
    requires Known(pow, m, e, x) && m == 0x1000000000000000000000000000000014def9dea2f79cd65812631a5cf5d3ed
    requires x == 0x2
    ensures e' == 0x1000000 * e + 0x427ebc
    ensures Known(pow, m, e', x') && x' == 0x83ced19e9a108d831bc0747768636293fcc7a6a33e76384f7f957d55ef2134f
  {
    e', x' := e, x;
    e', x' := Step(pow, m, e', x', 1, 2, 0x20);
    e', x' := Step(pow, m, e', x', 0, 1, 0x100000);
    e', x' := Step(pow, m, e', x', 0, 1, 0x100000000000000000000);
    e', x' := Step(pow, m, e', x', 2, 4, 0xffffffffffffffac84188574218ca6a104633476582a1965812631a5cf5d3ed);
    e', x' := Step(pow, m, e', x', 1, 2, 0x8e1d0f0049f716290b33a2cada2072c66d0d50cfedf8c650e2acdc746d8a762);
    e', x' := Step(pow, m, e', x', 3, 8, 0x3bbe549ab78e8e3117b7444214e37bdd8dc187db4bd81ceed36c45621e72dd);
    e', x' := Step(pow, m, e', x', 3, 8, 0x86d818be2df9c0fcbb65bdd50547d29268dc895dded7d19093adf32ffa8eaf8);
    e', x' := Step(pow, m, e', x', 2, 4, 0x27447e933d93ba08e1f3f51e3404a7a4d1b5b3d87fb920538510a58b89cd0dd);
    e', x' := Step(pow, m, e', x', 2, 4, 0xfc10bad906aad05ddfac7bd4142cfaeb56af42717c26d40fdf9d1c8ec688bb8);
    e', x' := Step(pow, m, e', x', 3, 8, 0xaa6aafb946e98172f60c437b1b94496a3e6356fc4f4184e7d85470d2ebe85eb);
    e', x' := Step(pow, m, e', x', 3, 8, 0xd3326110c3b9ed2cf83a06f5692cf1be8bc3fda23e250633b6999cb6d5ca701);
    e', x' := Step(pow, m, e', x', 0, 1, 0x83ced19e9a108d831bc0747768636293fcc7a6a33e76384f7f957d55ef2134f);
  }

  lemma Root253B(pow: nat -> int, m: int, e: nat, x: int) returns (e': nat, x': int)
    requires Known(pow, m, e, x) && m == 0x1000000000000000000000000000000014def9dea2f79cd65812631a5cf5d3ed
    requires x == 0x83ced19e9a108d831bc0747768636293fcc7a6a33e76384f7f957d55ef2134f
    ensures e' == 0x1000000 * e + 0x75f1cf
    ensures Known(pow, m, e', x') && x' == 0x6611bdf39439dfea489b75cb8e6ff5b8563928778761f9f15e0f1d998886862
  {
    e', x' := e, x;
    e', x' := Step(pow, m, e', x', 1, 2, 0xcff02c64ec79d0281f11dbdbffd7ee1c8593e317547a31f934902fd6345787c);
    e', x' := Step(pow, m, e', x', 3, 8, 0x4b0330a6fa5ca3bc77859e134df65177e6d069edd10643f54492333e0cd4317);
    e', x' := Step(pow, m, e', x', 1, 2, 0x284dc2fe78b178c75f67d9179fc62dafe213b2106a205fae8826f9f37f9e884);
    e', x' := Step(pow, m, e', x', 1, 2, 0xe81c8bdea81d930c22664bddd78a7e8bee1d6d0540cce2adbf0990b928b1271);
    e', x' := Step(pow, m, e', x', 3, 8, 0x35138bee705b2a1fd0f844f863246426297124467985c54c6809cd61262e598);
    e', x' := Step(pow, m, e', x', 3, 8, 0xab93290de356f5d731c08626b2abe1af4e8e06bda15156e617d7092015cccf6);
    e', x' := Step(pow, m, e', x', 0, 1, 0x78222d417ed00f5378f9d686b4571b96deb35c2a8ff34ced14ff96905c67988);
    e', x' := Step(pow, m, e', x', 1, 2, 0xc9536bbe874d0925c9e8c3fd65a1023db1e146a1fe7f1e1f28ce7f35262108e);
    e', x' := Step(pow, m, e', x', 3, 8, 0x776c3b602626c490691221fde46683124be49f53ad00f037735c45dcbd0de73);
    e', x' := Step(pow, m, e', x', 0, 1, 0x3972484110b0017b37b87f1d298dfcc2512686bab79eb2dbce93dc20626be20);
    e', x' := Step(pow, m, e', x', 3, 8, 0xda8f441e2b443cc229f9e5483e9e42ce6c874237bd467a93b95271e8a5f91a7);
    e', x' := Step(pow, m, e', x', 3, 8, 0x6611bdf39439dfea489b75cb8e6ff5b8563928778761f9f15e0f1d998886862);
  }

  lemma Root253C(pow: nat -> int, m: int, e: nat, x: int) returns (e': nat, x': int)
    requires Known(pow, m, e, x) && m == 0x1000000000000000000000000000000014def9dea2f79cd65812631a5cf5d3ed
    requires x == 0x6611bdf39439dfea489b75cb8e6ff5b8563928778761f9f15e0f1d998886862
    ensures e' == 0x400000 * e + 0xc7768
    ensures Known(pow, m, e', x') && x' == 0x1a4cff3d4dcf275200ec38f583b282e01def447a1b231b4f3c43e736f3e0d67
  {
    e', x' := e, x;
    e', x' := Step(pow, m, e', x', 0, 1, 0xa7c8609c140b7a87645c00d42e4ae0140403f0b56211baedb4d5728822cc748);
    e', x' := Step(pow, m, e', x', 3, 8, 0xd35d9346c52078ec393d86ece06351d1af494ef80e05349f31ff7bf4577a34d);
    e', x' := Step(pow, m, e', x', 0, 1, 0x2a53279f8297a3fef7d6c5c47ee575c100a167b15138e61d007e48ff1468a86);
    e', x' := Step(pow, m, e', x', 1, 2, 0x81ffc40476dbb56b0031eee5c627b22b06040a213f9b5ead70e7c4b29b26b96);
    e', x' := Step(pow, m, e', x', 3, 8, 0xc80eab45fc2fb3103941419dc16fb1c150e58b6c4a5c760d0f6f829de377de3);
    e', x' := Step(pow, m, e', x', 1, 2, 0x414700c436a5f2bb9a0040b1a231a3160459e92fb6821a74cb5807dc1818601);
    e', x' := Step(pow, m, e', x', 3, 8, 0x627465a5b4f35ef29fd6e991b6a3085b70485010001643ae306d5d84a422914);
    e', x' := Step(pow, m, e', x', 1, 2, 0xa66d2d6ce135942014c3c400a45fc2f93d538a6f9680afc07cac1c187e99c9f);
    e', x' := Step(pow, m, e', x', 2, 4, 0xcafae15f16a4be7a9ce2dcaf72c63550f7a2fc9b58a9822e01969bbf508193f);
    e', x' := Step(pow, m, e', x', 2, 4, 0x7378916e55ec56d87eaf68b522656c844ce9b5cb9e57e0033cb635e5fae7960);
    e', x' := Step(pow, m, e', x', 0, 1, 0x1a4cff3d4dcf275200ec38f583b282e01def447a1b231b4f3c43e736f3e0d67);
  }

  lemma Root253D(pow: nat -> int, m: int, e: nat, x: int) returns (e': nat, x': int)
    requires Known(pow, m, e, x) && m == 0x1000000000000000000000000000000014def9dea2f79cd65812631a5cf5d3ed
    requires x == 0x1a4cff3d4dcf275200ec38f583b282e01def447a1b231b4f3c43e736f3e0d67
    ensures e' == 0x400000 * e + 0x8e8d2
    ensures Known(pow, m, e', x') && x' == 0x2f267c6bb5c1f618ebe897ad2aab0538a68f57ed4e69b8089a852b941a7fbca
  {
    e', x' := e, x;
    e', x' := Step(pow, m, e', x', 0, 1, 0x66eb3c861e9d22475f2b58eaa1b1fe08ef79c5b7d328a295c68ce22478d18dc);
    e', x' := Step(pow, m, e', x', 2, 4, 0x3d41ac5669e834026c1e29f9acae928d6ffeffb710b1718a9195b345121736d);
    e', x' := Step(pow, m, e', x', 0, 1, 0xf88392aef066bccf8721f338d8c69e1e93f62fd5ab25bc4cd200ee92b55423b);
    e', x' := Step(pow, m, e', x', 3, 8, 0x6b9db0157a1695716fc6d68496ba6e13f5be7c7c792e6cd0a40ea2d49bf54f6);
    e', x' := Step(pow, m, e', x', 2, 4, 0xe44b44704986bcf41b45f6acd7c59f2d431e56708581e92c5763afafb752c41);
    e', x' := Step(pow, m, e', x', 2, 4, 0x1c2b69cc4b5c2e491778cb0f37f800a42fe9c454070ad9120d4a9383db941d9);
    e', x' := Step(pow, m, e', x', 0, 1, 0x454a8ee3dd1c2bf3007d19144a0b337938f1ce29bcfa25109c386555883b82b);
    e', x' := Step(pow, m, e', x', 3, 8, 0xe7116a18d5c918d871e9e3bcf125b75d2d0e4d5e17c0f04fda4c31078723b8d);
    e', x' := Step(pow, m, e', x', 1, 2, 0x82986605bdb40a78df6c349dfce2867863ddb7f350604ec6bdfd20a0c3c2091);
    e', x' := Step(pow, m, e', x', 0, 1, 0x87e93f02ef22fe029f4028a904954055642d6a640d07fc9fca9daec16347faf);
    e', x' := Step(pow, m, e', x', 2, 4, 0x2f267c6bb5c1f618ebe897ad2aab0538a68f57ed4e69b8089a852b941a7fbca);
  }

  lemma Root253E(pow: nat -> int, m: int, e: nat, x: int) returns (e': nat, x': int)
    requires Known(pow, m, e, x) && m == 0x1000000000000000000000000000000014def9dea2f79cd65812631a5cf5d3ed
    requires x == 0x2f267c6bb5c1f618ebe897ad2aab0538a68f57ed4e69b8089a852b941a7fbca
    ensures e' == 0x400000 * e + 0xcaa44
    ensures Known(pow, m, e', x') && x' == 0x6941747825185c74c21c65c0572a638494435ae0b3ba38e09b97aa8d26faec1
  {
    e', x' := e, x;
    e', x' := Step(pow, m, e', x', 0, 1, 0x6507169e1b8cde52ddb2539e39fb2697fb63b4cd8e26b49aa0a0f11762d7f16);
    e', x' := Step(pow, m, e', x', 3, 8, 0x61efc949d6b8dc83265e80e046bb343abb4e47fcd13c79ea143310cf637070c);
    e', x' := Step(pow, m, e', x', 0, 1, 0x1887adb4ba8c206054e63011f9f9a7b3aef2ebc4dc26606704ad0bfc914be4);
    e', x' := Step(pow, m, e', x', 2, 4, 0x271f86fca1bac0e05e3dab2679049dba2c4fdc65ae8f4beefb03b632942c63);
    e', x' := Step(pow, m, e', x', 2, 4, 0x6da1db8430cb1b95bad4ae9d0cf4a1d57564ef336dda2e6a75cd90566c7d6ad);
    e', x' := Step(pow, m, e', x', 2, 4, 0x4b00e911c50e805323ce1547e1000dddb3e7865c578efce4a8938295295cda);
    e', x' := Step(pow, m, e', x', 2, 4, 0xb572aba64c5a77b0cbad0b93da696f02255a6fbdfc5976c941fce7b74811256);
    e', x' := Step(pow, m, e', x', 1, 2, 0x95e4657ed50ebc6dc6872781566b8278165f7a135d5ca82228a501663231322);
    e', x' := Step(pow, m, e', x', 0, 1, 0x7e0bc1d1059fc9fd46a6495ef4aca855a37bf4a7c402024242e8a1c94fbb423);
    e', x' := Step(pow, m, e', x', 1, 2, 0xcf2326741c68cdd072b5c6e3b5db2bc6f01f526073951c123e8558ebee0fc6);
    e', x' := Step(pow, m, e', x', 0, 1, 0x6941747825185c74c21c65c0572a638494435ae0b3ba38e09b97aa8d26faec1);
  }

  lemma Power253A(pow: nat -> int, m: int, e: nat, x: int) returns (e': nat, x': int)
    requires Known(pow, m, e, x) && m == 0x1000000000000000000000000000000014def9dea2f79cd65812631a5cf5d3ed
    requires x == 0x2
    ensures e' == 0x1000000 * e + 0x0
    ensures Known(pow, m, e', x') && x' == 0x16f8b98b53a2b47ac36b4217ec580cdbcd8a57ab84386ad2d36e6d56858c46f
  {
    e', x' := e, x;
    e', x' := Step(pow, m, e', x', 0, 1, 0x10);
    e', x' := Step(pow, m, e', x', 0, 1, 0x10000);
    e', x' := Step(pow, m, e', x', 0, 1, 0x10000000000000000);
    e', x' := Step(pow, m, e', x', 0, 1, 0xffffffffffffffffffffffffffffffec6ef5bf4737dcf70d6ec31748d98951d);
    e', x' := Step(pow, m, e', x', 0, 1, 0x9dc924e5a45ffd7e7faf80eb68700589d31cab2023493f73a3dc22242419a0d);
    e', x' := Step(pow, m, e', x', 0, 1, 0xf1c7e9a75c48198b3ce05d5df3f6cf8528fbd8e8942860d8566135af9bbc5c8);
    e', x' := Step(pow, m, e', x', 0, 1, 0xc7b79e5aed23f1543a6f18cc20a0caecacc72057819496f257f671fcac9fa56);
    e', x' := Step(pow, m, e', x', 0, 1, 0xa93ee1af2e4a00398aef9eb9d8164c219dfc6f7eda4a0fef4144ae4b5b695cb);
    e', x' := Step(pow, m, e', x', 0, 1, 0xb40dea20a301c5fd0ae33a4008645a8b36f4efbb21dcab4689259e1291cfb3d);
    e', x' := Step(pow, m, e', x', 0, 1, 0x752169d675dee8276253ab3e418668bc35b5fdf10bf904c060523f8f8b5fe4e);
    e', x' := Step(pow, m, e', x', 0, 1, 0xf00282ba5ffc8571dbc4e9d3ce1065d888e0db16e10f687f5a800e328271cf8);
    e', x' := Step(pow, m, e', x', 0, 1, 0x16f8b98b53a2b47ac36b4217ec580cdbcd8a57ab84386ad2d36e6d56858c46f);
  }

  lemma Power253B(pow: nat -> int, m: int, e: nat, x: int) returns (e': nat, x': int)
    requires Known(pow, m, e, x) && m == 0x1000000000000000000000000000000014def9dea2f79cd65812631a5cf5d3ed
    requires x == 0x16f8b98b53a2b47ac36b4217ec580cdbcd8a57ab84386ad2d36e6d56858c46f
    ensures e' == 0x1000000 * e + 0x0
    ensures Known(pow, m, e', x') && x' == 0xa15a032c5a1029c40b3bd957978b9a6c79be1aed82b5a56f91042fbd4a2671f
  {
    e', x' := e, x;
    e', x' := Step(pow, m, e', x', 0, 1, 0xd51bb25ee54a8300a067cee58b1195aae994be00053cb3c3c52c7c194c937de);
    e', x' := Step(pow, m, e', x', 0, 1, 0xb23dc51b8f0ccb57c2ed594db5fa6ddd5d6f9cacd10a39a429460f6e00e0793);
    e', x' := Step(pow, m, e', x', 0, 1, 0xb6a5560fc0808f00b7397e44fdaf7c98330d229827724199bc45f5c468b995f);
    e', x' := Step(pow, m, e', x', 0, 1, 0x5964aa76446b40efafb7760a871c45f199c9738b2187a29c8b67868d8bdffca);
    e', x' := Step(pow, m, e', x', 0, 1, 0x62296e78b67e35ae43867bb9e4a288445f7dfdfd7751bf44c40224c6349f1df);
    e', x' := Step(pow, m, e', x', 0, 1, 0x3a85a501f1d49c691dd426b05dc1c8dd5e0303795741dd55fc7abfdb0b0360a);
    e', x' := Step(pow, m, e', x', 0, 1, 0xc801a8c9ac68530a97bc81c0cda9b1d4bcb235c31f086fe558eb2660e6a9f07);
    e', x' := Step(pow, m, e', x', 0, 1, 0x46b8a5833e92b5e6806c4b7e25410a472460c487dea27818e47d29c76c9a4e2);
    e', x' := Step(pow, m, e', x', 0, 1, 0x6b35eb9cd9e69315f33700e5da1421d858102815339372d11253d515b1299cd);
    e', x' := Step(pow, m, e', x', 0, 1, 0x4d5af79fe30a5a582abf5caeb3e9f084937a5df69ec73276e5b4dc2c7ca74a);
    e', x' := Step(pow, m, e', x', 0, 1, 0xb15bf7a65d695811bc038ffd22cfa5c3a8c668d04ea1062ab1814bd5af621e9);
    e', x' := Step(pow, m, e', x', 0, 1, 0xa15a032c5a1029c40b3bd957978b9a6c79be1aed82b5a56f91042fbd4a2671f);
  }

  lemma Power253C(pow: nat -> int, m: int, e: nat, x: int) returns (e': nat, x': int)
    requires Known(pow, m, e, x) && m == 0x1000000000000000000000000000000014def9dea2f79cd65812631a5cf5d3ed
    requires x == 0xa15a032c5a1029c40b3bd957978b9a6c79be1aed82b5a56f91042fbd4a2671f
    ensures e' == 0x1000000 * e + 0x0
    ensures Known(pow, m, e', x') && x' == 0xcc3c20918e63070ef975f15571b44c2fdd0a8fc26ec5c8b05c12681d42816a1
  {
    e', x' := e, x;
    e', x' := Step(pow, m, e', x', 0, 1, 0xcb00a6efe0b24f3e24bba3bb2b83c5c168175eaee8e49184fa89f228e26ba5e);
    e', x' := Step(pow, m, e', x', 0, 1, 0xcbddf9b1c03448d616a3bccb854e8c1c4317bb28ba3106cbf8d84f46c8cb578);
    e', x' := Step(pow, m, e', x', 0, 1, 0xa501066a23e0e47a0ffb2a26036c52f4568d4f60930331273d90741dcdd4ebb);
    e', x' := Step(pow, m, e', x', 0, 1, 0x2fbb143967106f138133045c8dd258d57981f7b77ef2efb08f99a6511515820);
    e', x' := Step(pow, m, e', x', 0, 1, 0xcff1cc4ee2d7dba7b706a12645eb85e2d527b95e5e48a1cbeeb1cb8fa45a5c7);
    e', x' := Step(pow, m, e', x', 0, 1, 0x5f7bbf69ad7b2fd5ecbf6baaab18e3fdb6259e6f88fae12fd756d6342276119);
    e', x' := Step(pow, m, e', x', 0, 1, 0xa1217a0e4f33f393b73fb20acc0018cde1fd16c907c6e0b27d3128fe7f71da0);
    e', x' := Step(pow, m, e', x', 0, 1, 0x6e1bed5c833b22f2e84961eca25da6c9b72395be572928eaa9e5a14184fa2e0);
    e', x' := Step(pow, m, e', x', 0, 1, 0x6306ce46343b328ed2cf7c4893eb94dacac371b791e64340661285488d8493);
    e', x' := Step(pow, m, e', x', 0, 1, 0x3a2007a25d436a2b27e3eed02e9c535ba8cf3689ead175b34ea25946e3d6d36);
    e', x' := Step(pow, m, e', x', 0, 1, 0x863876b29bd5fb9bc07a268e238b9b803b13df16da97b4894ba9b35309c1ac5);
    e', x' := Step(pow, m, e', x', 0, 1, 0xcc3c20918e63070ef975f15571b44c2fdd0a8fc26ec5c8b05c12681d42816a1);
  }

  lemma Power253D(pow: nat -> int, m: int, e: nat, x: int) returns (e': nat, x': int)
    requires Known(pow, m, e, x) && m == 0x1000000000000000000000000000000014def9dea2f79cd65812631a5cf5d3ed
    requires x == 0xcc3c20918e63070ef975f15571b44c2fdd0a8fc26ec5c8b05c12681d42816a1
    ensures e' == 0x1000000 * e + 0x0
    ensures Known(pow, m, e', x') && x' == 0x239be1c68863486ab4b01ea8fb3b6712c2b7049d5863261cfeb39a9c3e8a880
  {
    e', x' := e, x;
    e', x' := Step(pow, m, e', x', 0, 1, 0xb3a3787bf891469fa83319d70a47601b576487c6b8607cd7079e1e4201ca17c);
    e', x' := Step(pow, m, e', x', 0, 1, 0x35c76169682f1f35777bedd1dd503ee5dbdcf380a7169fe7ba231c8e7b1b67e);
    e', x' := Step(pow, m, e', x', 0, 1, 0xd6ff6c923cc474e6c355375c2db500c1ac5b29b0f31fe3e9a685f4ca9a2ad14);
    e', x' := Step(pow, m, e', x', 0, 1, 0xe9cc52ab81e7885e2c6828adb517f5c218f2dd39840bebff476cd7356b850a4);
    e', x' := Step(pow, m, e', x', 0, 1, 0x5a77ca5ae2dde3ee8340da695a0cddacc7eb1a7c36b78bcdc0238662b955a08);
    e', x' := Step(pow, m, e', x', 0, 1, 0xf8a7ca3021076303f2ba1ca45441bb6d71cfc0744774a64854148fa8e62d366);
    e', x' := Step(pow, m, e', x', 0, 1, 0xbad3d57e8f32a9fe8139f8ef416c98b5e8655c0b0f69984626ee477549460a1);
    e', x' := Step(pow, m, e', x', 0, 1, 0x7847b18ddc3e528c989e4c1c18ee795b5ce8dafc6db7ad93fd5ca0c007b3ffd);
    e', x' := Step(pow, m, e', x', 0, 1, 0xec2017cfa1b888e5ab7169395b3c92fbc19c92e1be9e25cc6ab6061ae57db68);
    e', x' := Step(pow, m, e', x', 0, 1, 0x62526fb2dc80fe9e3794ac2a6d82ecf80572fb13b606d89f6d746ee263e76c4);
    e', x' := Step(pow, m, e', x', 0, 1, 0x25b0c5d9b39da22dd17e144381c76ecff3ba96040bf8d70d591afe638e7bf31);
    e', x' := Step(pow, m, e', x', 0, 1, 0x239be1c68863486ab4b01ea8fb3b6712c2b7049d5863261cfeb39a9c3e8a880);
  }

  lemma Power253E(pow: nat -> int, m: int, e: nat, x: int) returns (e': nat, x': int)
    requires Known(pow, m, e, x) && m == 0x1000000000000000000000000000000014def9dea2f79cd65812631a5cf5d3ed
    requires x == 0x239be1c68863486ab4b01ea8fb3b6712c2b7049d5863261cfeb39a9c3e8a880
    ensures e' == 0x1000000 * e + 0x0
    ensures Known(pow, m, e', x') && x' == 0x87e6775614b9efa6ab63a41663f2c6e489ec4dcd30d2afa0e2aefb7cd124343
  {
    e', x' := e, x;
    e', x' := Step(pow, m, e', x', 0, 1, 0x62d9661dbb71b4ca0b8da2def0e11bb8643e5e76a89f8fccb8f626f5c7c068b);
    e', x' := Step(pow, m, e', x', 0, 1, 0x4450c3b8e25f7b99ae5320a80e38d3246d336742bddc2957893b713335975f8);
    e', x' := Step(pow, m, e', x', 0, 1, 0x5709b40883a028b67a86b193a49ae9a42a6f1fb0f0a3c4c1112f6df8233a898);
    e', x' := Step(pow, m, e', x', 0, 1, 0x7fbb98a293618a6c9edd660d05684c16e2bf5f55c32247c6396aaca71b4d59b);
    e', x' := Step(pow, m, e', x', 0, 1, 0x730adbff82203bb0545d53b1514d09c37ea84e3b6c6212612bfb049bc6d6e32);
    e', x' := Step(pow, m, e', x', 0, 1, 0xac7bd451d4e2354ef1a6234a016a221e47c271e49dc4a63715f10d40992975);
    e', x' := Step(pow, m, e', x', 0, 1, 0x5ce4fd7a55550fae7ffda2853ab32810efb2b6103364d481508cdd3177f561e);
    e', x' := Step(pow, m, e', x', 0, 1, 0xb46a4ac3fd346e317cc3c860442b9dedfef506d6cbe3dc67e82869571e389c6);
    e', x' := Step(pow, m, e', x', 0, 1, 0xc169fa1c7a72fafe573e54e74e7a71b85946684c3a3b6312469b348462342cf);
    e', x' := Step(pow, m, e', x', 0, 1, 0x46c02b6e5959111511b91b98c8dee29ae9bfe57f3a63b50d36a930b089dabaf);
    e', x' := Step(pow, m, e', x', 0, 1, 0xa0ed570263e726a82506362edefbdf6442881b907f576a3cfe2bdc5bbe25a9);
    e', x' := Step(pow, m, e', x', 0, 1, 0x87e6775614b9efa6ab63a41663f2c6e489ec4dcd30d2afa0e2aefb7cd124343);
  }

  lemma Power253F(pow: nat -> int, m: int, e: nat, x: int) returns (e': nat, x': int)
    requires Known(pow, m, e, x) && m == 0x1000000000000000000000000000000014def9dea2f79cd65812631a5cf5d3ed
    requires x == 0x87e6775614b9efa6ab63a41663f2c6e489ec4dcd30d2afa0e2aefb7cd124343
    ensures e' == 0x400000 * e + 0x537b
    ensures Known(pow, m, e', x') && x' == 0xef1d1b4a1dec9066bd331514821e553ebbd64961c16337b24cd5ee76c5f45b6
  {
    e', x' := e, x;
    e', x' := Step(pow, m, e', x', 0, 1, 0x6728f76622b43ff0293993c74e63117825addf19a42f0f9cc873fe46193f7e);
    e', x' := Step(pow, m, e', x', 0, 1, 0xf9a14a27f7c8e2c046fc0ceb4c8b72846ec1f156e96c8794b34e3c2576ddbf6);
    e', x' := Step(pow, m, e', x', 0, 1, 0xa8b4546b96f2b876759b1e722ca1b7754e5b68fa8d2cd62a4c90ded7f52d5b9);
    e', x' := Step(pow, m, e', x', 1, 2, 0x37e6a06ad916a54cd3658577a8fa50967603f0f64f1c5601f50b0c946950cc9);
    e', x' := Step(pow, m, e', x', 1, 2, 0xb8344df9b93ad323002ae0ce62da6ce3d665d078d35a32b97572b424b2dfd41);
    e', x' := Step(pow, m, e', x', 0, 1, 0x60aeaef62791cabf88fafe532841d667e4fa90d5c2e4f441ecaad68b8f94a44);
    e', x' := Step(pow, m, e', x', 3, 8, 0xc298a152fa86afec13e7111e5e73d2ef58a47cb412fa4507f979ac43e8d8042);
    e', x' := Step(pow, m, e', x', 1, 2, 0x8ba675aa745705328b73a8975420efdc5a3a563f1ade344d89506d55df71ffc);
    e', x' := Step(pow, m, e', x', 3, 8, 0xdc6764d224b315daef5139c64c4c45e7691f8e5db5fcde8dda24010b3276cb6);
    e', x' := Step(pow, m, e', x', 2, 4, 0xafe71bc58bded66a1ddb93105f82448503578333a515aa95fb11a87e5f75c04);
    e', x' := Step(pow, m, e', x', 3, 8, 0xef1d1b4a1dec9066bd331514821e553ebbd64961c16337b24cd5ee76c5f45b6);
  }

  lemma Power253G(pow: nat -> int, m: int, e: nat, x: int) returns (e': nat, x': int)
    requires Known(pow, m, e, x) && m == 0x1000000000000000000000000000000014def9dea2f79cd65812631a5cf5d3ed
    requires x == 0xef1d1b4a1dec9066bd331514821e553ebbd64961c16337b24cd5ee76c5f45b6
    ensures e' == 0x400000 * e + 0x39dea2
    ensures Known(pow, m, e', x') && x' == 0x43504ad5838b56d5fab10b41016ea5c047e0859994da0893fa5cff3ff4be7bf
  {
    e', x' := e, x;
    e', x' := Step(pow, m, e', x', 3, 8, 0x6edfa31b7db50d096c7a8401e29eb218d506a5abcd209ac7e9481c22eea3f04);
    e', x' := Step(pow, m, e', x', 2, 4, 0x6fb0ba08f1609f86cc4981406ab1d913b8101b1195424c2c6441546ccb2707e);
    e', x' := Step(pow, m, e', x', 1, 2, 0xfa8b7377ff4f24022e94a5795db274ca74a67bedea50a667a8c9a96bd5a8001);
    e', x' := Step(pow, m, e', x', 3, 8, 0x12c310519fe3de9588c1216adcb3f5e7f9b759317bb4afacd090a619b78d461);
    e', x' := Step(pow, m, e', x', 1, 2, 0x34e8d3b72e94012b3bdc0a1ae7997b10925f708aa32708186dc74ed3fef4cd8);
    e', x' := Step(pow, m, e', x', 3, 8, 0xa8fee47c3e6d41bd9130e691b9bf8d448817ac0646a2f0e9c46759a5d826c2a);
    e', x' := Step(pow, m, e', x', 2, 4, 0x631abe59a5ab098394a041643f87ead1fcac5489e69c63ccfa5345e3bc4034d);
    e', x' := Step(pow, m, e', x', 2, 4, 0x30b0a44067fd4496c75efe77d3a0ccc85a6fca6434bee56471e5e90a1f03bb1);
    e', x' := Step(pow, m, e', x', 2, 4, 0x2a957d477979de3f999b3dfab607d5f8bf58a6396078c0c6bcb76e74f684423);
    e', x' := Step(pow, m, e', x', 0, 1, 0xcdf5e398030c15af0cb2c468a5b2e10cfef0d38bf3c70d57048c65aed832bff);
    e', x' := Step(pow, m, e', x', 2, 4, 0x43504ad5838b56d5fab10b41016ea5c047e0859994da0893fa5cff3ff4be7bf);
  }

  lemma Power253H(pow: nat -> int, m: int, e: nat, x: int) returns (e': nat, x': int)
    requires Known(pow, m, e, x) && m == 0x1000000000000000000000000000000014def9dea2f79cd65812631a5cf5d3ed
    requires x == 0x43504ad5838b56d5fab10b41016ea5c047e0859994da0893fa5cff3ff4be7bf
    ensures e' == 0x400000 * e + 0x3de735
    ensures Known(pow, m, e', x') && x' == 0xd31f6bc8fde6b51a25dac16eb12c47be125b147b4ce4804676ca95baa7318cb
  {
    e', x' := e, x;
    e', x' := Step(pow, m, e', x', 3, 8, 0xf55ad5be03956baf3fe2ea385ba1856bc0a13498b55308b6c4cbf52746952b8);
    e', x' := Step(pow, m, e', x', 3, 8, 0xa801eb2b3d21d8af2a0c24ef7b82eb5e46f23b342d975d42e58835dc8a31ff0);
    e', x' := Step(pow, m, e', x', 1, 2, 0x467075e708bf4b3e4865014c1df42579b6912fedc3175c9b28d491f46718e63);
    e', x' := Step(pow, m, e', x', 3, 8, 0x3900b3dc53d2b8fcdb06c0ef3eec783954caf9a270b6f8594b685d39eb3fd7b);
    e', x' := Step(pow, m, e', x', 2, 4, 0x12123e2c4692f0062257808c51698e1b8c991c8123f8c023c90af635edd51cd);
    e', x' := Step(pow, m, e', x', 1, 2, 0x561a6112cfb4ff36f2430f926137cc09fcb53ce2c7f5ef0e12bda4906a7f982);
    e', x' := Step(pow, m, e', x', 3, 8, 0x877bdd218d1457d257b0d69c97b8f87567483b1b2b9352ea6f074ed5746799e);
    e', x' := Step(pow, m, e', x', 0, 1, 0x6d265522cfd7c250714e73883f84b04168559e598b38d4d05b95a94458ab700);
    e', x' := Step(pow, m, e', x', 3, 8, 0x99c28d20f8417da76990c9705e98390d68b7d8f2a21d9f544c8f92c0c014175);
    e', x' := Step(pow, m, e', x', 1, 2, 0x2042efec5df60d90a9ba2ba1606fc0bdb7290801ca89d1a1524102ae61781a9);
    e', x' := Step(pow, m, e', x', 1, 2, 0xd31f6bc8fde6b51a25dac16eb12c47be125b147b4ce4804676ca95baa7318cb);
  }

  lemma Power253I(pow: nat -> int, m: int, e: nat, x: int) returns (e': nat, x': int)
    requires Known(pow, m, e, x) && m == 0x1000000000000000000000000000000014def9dea2f79cd65812631a5cf5d3ed
    requires x == 0xd31f6bc8fde6b51a25dac16eb12c47be125b147b4ce4804676ca95baa7318cb
    ensures e' == 0x400000 * e + 0x258126
    ensures Known(pow, m, e', x') && x' == 0x45288ccfbb32bc5776668355618812e0aa6a9500ea3f8131951b49d3fc7fedf
  {
    e', x' := e, x;
    e', x' := Step(pow, m, e', x', 2, 4, 0x8965843b7ca50c7106b35ad5036a7a42094ac4d46a97fcf3a9b2230ed82b22e);
    e', x' := Step(pow, m, e', x', 1, 2, 0x30af1db9b0555a7f8e1ca949286207f8fae1b2790e6fe1b39bda5885c4ec02b);
    e', x' := Step(pow, m, e', x', 1, 2, 0xf088aebc54e072a889562be74f841ca9455928b6df46170e965aa39c8112c0c);
    e', x' := Step(pow, m, e', x', 2, 4, 0x4628d38d225bbfb0bbe3ed12f51900f83d606e8ab372ac63268a51872ee5ca);
    e', x' := Step(pow, m, e', x', 0, 1, 0x441278b40aa804a4441cfbeaee0ea458b13207659f50f59088acab02157047a);
    e', x' := Step(pow, m, e', x', 0, 1, 0xd766556d47cd23601700b0e664aefad58047cfdd18394e743989f0c77e7e4db);
    e', x' := Step(pow, m, e', x', 1, 2, 0x1892e28b62766d757c5f19df6a8d3dbd00e67cbbfa0568ae4f9b6463a243138);
    e', x' := Step(pow, m, e', x', 0, 1, 0xef031f099339ca363dcc7653de0ac8117c27dc40052e217f74664e520c81367);
    e', x' := Step(pow, m, e', x', 2, 4, 0x6124f1f90d9c2c12ef226af215020bbdd04c9c88f50a4ebb1766f6993a458e4);
    e', x' := Step(pow, m, e', x', 1, 2, 0xaf2695fe51d320b6e3764a4fda285bde4b30a7bd4e7bcff332d320bff65636d);
    e', x' := Step(pow, m, e', x', 2, 4, 0x45288ccfbb32bc5776668355618812e0aa6a9500ea3f8131951b49d3fc7fedf);
  }

  lemma Power253J(pow: nat -> int, m: int, e: nat, x: int) returns (e': nat, x': int)
    requires Known(pow, m, e, x) && m == 0x1000000000000000000000000000000014def9dea2f79cd65812631a5cf5d3ed
    requires x == 0x45288ccfbb32bc5776668355618812e0aa6a9500ea3f8131951b49d3fc7fedf
    ensures e' == 0x400000 * e + 0xc6973
    ensures Known(pow, m, e', x') && x' == 0x7d84d1c1389c5bbc374180bb5f88e8e3c79be4cf6cde0047f1ebe7249dcf82b
  {
    e', x' := e, x;
    e', x' := Step(pow, m, e', x', 0, 1, 0x345636e7d3c78a498427a70ea7030cbe5fe59d8e687acc87bcf7a5cee9d516a);
    e', x' := Step(pow, m, e', x', 3, 8, 0x55f64b6cc8a14190fda9436e791b74458698f9968c3310e48ba1f873c5cde13);
    e', x' := Step(pow, m, e', x', 0, 1, 0xd619a0198093b103522cbd44252fb5dccd67a559cd25ae43bb7aebbe407d6e8);
    e', x' := Step(pow, m, e', x', 1, 2, 0xaa9607604406e05790ec1ac762125f8ae1e76d537ee3877499f80606234e18e);
    e', x' := Step(pow, m, e', x', 2, 4, 0xd4e62415c1eccf87e05be503ad8724984f5c5d75c7110a235f055fbc840585f);
    e', x' := Step(pow, m, e', x', 2, 4, 0x79eac773f9b01cf9f429f91eb2caa0b3f920c91e83e847b4b77e83130116922);
    e', x' := Step(pow, m, e', x', 1, 2, 0x215a04252a8dcb627c4826b145902e262e4a851a31508984109380f84646f64);
    e', x' := Step(pow, m, e', x', 1, 2, 0x73b89c2d1b0848cabf2ab2632021f5cdbdb8c59b7744bffb74a0fc8d8d362);
    e', x' := Step(pow, m, e', x', 3, 8, 0xdc45fa486fe69867174ed77714968efdef54d74149ff457001234690d0882a9);
    e', x' := Step(pow, m, e', x', 0, 1, 0x5016977ec15ae931521dc6ff27d4f6dacb945f5c041d3c4e78b3ceb5ae443d2);
    e', x' := Step(pow, m, e', x', 3, 8, 0x7d84d1c1389c5bbc374180bb5f88e8e3c79be4cf6cde0047f1ebe7249dcf82b);
  }

  lemma Power253K(pow: nat -> int, m: int, e: nat, x: int) returns (e': nat, x': int)
    requires Known(pow, m, e, x) && m == 0x1000000000000000000000000000000014def9dea2f79cd65812631a5cf5d3ed
    requires x == 0x7d84d1c1389c5bbc374180bb5f88e8e3c79be4cf6cde0047f1ebe7249dcf82b
    ensures e' == 0x400000 * e + 0x35d3ec
    ensures Known(pow, m, e', x') && x' == 0x1
  {
    e', x' := e, x;
    e', x' := Step(pow, m, e', x', 3, 8, 0xf6f918f6f632c9cfde152f478a274529f296487fd7cb6fb61fec6fcb416347c);
    e', x' := Step(pow, m, e', x', 1, 2, 0x12bbf57ed87dcce666ebdf8e6da8fcb9df8bbf1fba14f41cd46e3fba979ee71);
    e', x' := Step(pow, m, e', x', 1, 2, 0x12870b97c3648b518cc037d62df289c6428f8920be87214812590a1a41114a3);
    e', x' := Step(pow, m, e', x', 3, 8, 0xdc78b441d859c4beb725fe05c77cc21c353f779f5f0a051e84394e553c12fe5);
    e', x' := Step(pow, m, e', x', 1, 2, 0x16ee1c56acd6e08dc8540ab202f2c008c81dd68fb1ee35b531279a62a6e7cff);
    e', x' := Step(pow, m, e', x', 0, 1, 0x8900a81265ce6b645b3e8764077e8a1510df84d00b6455491ee588892c31299);
    e', x' := Step(pow, m, e', x', 3, 8, 0x4847178168bc62f4b69678ac015c8930b2a616543e600bf9712ed20cf477b47);
    e', x' := Step(pow, m, e', x', 3, 8, 0xd64becd609be067567030e524925d327fd458381dfc02aa42a749bfdda2a1ed);
    e', x' := Step(pow, m, e', x', 2, 4, 0x93b07239fa73ed24520f4d8eefa1bbc045550e69d4d593e5823b739fca45cce);
    e', x' := Step(pow, m, e', x', 3, 8, 0x94a7310e07981e77d3d6d60abc1c27a0ef0565342ce83febe8775dfebbe07d4);
    e', x' := Step(pow, m, e', x', 0, 1, 0x1);
  }

  lemma Checks253(m: int, q: int, r: nat, b: int, inverse: int)
    requires m == 0x1000000000000000000000000000000014def9dea2f79cd65812631a5cf5d3ed
    requires q == 0x32cdcafae152df290ed9fa9b80caa8174cb && r == 0x509faf1d7c73cc776823a348caa44
    requires b == 0x6941747825185c74c21c65c0572a638494435ae0b3ba38e09b97aa8d26faec1
    requires inverse == 0x4f00a20dc254447a5cb50de6926ccd209ebc28f00f1664a7d2f3930fbe411ae
    ensures Checks(m, q, r, b, inverse)
  {
  }

  lemma Prime253()
    ensures Prime(0x1000000000000000000000000000000014def9dea2f79cd65812631a5cf5d3ed)
  {
    var m := 0x1000000000000000000000000000000014def9dea2f79cd65812631a5cf5d3ed;
    var q, r, pow := 0x32cdcafae152df290ed9fa9b80caa8174cb, 0x509faf1d7c73cc776823a348caa44, PowersOf(m);
    var e, b := 1, 2;
    Begin(pow, m, e, b);
    e, b := Root253A(pow, m, e, b);
    e, b := Root253B(pow, m, e, b);
    e, b := Root253C(pow, m, e, b);
    e, b := Root253D(pow, m, e, b);
    e, b := Root253E(pow, m, e, b);
    var f, x := 1, 2;
    Begin(pow, m, f, x);
    f, x := Power253A(pow, m, f, x);
    f, x := Power253B(pow, m, f, x);
    f, x := Power253C(pow, m, f, x);
    f, x := Power253D(pow, m, f, x);
    f, x := Power253E(pow, m, f, x);
    f, x := Power253F(pow, m, f, x);
    f, x := Power253G(pow, m, f, x);
    f, x := Power253H(pow, m, f, x);
    f, x := Power253I(pow, m, f, x);
    f, x := Power253J(pow, m, f, x);
    f, x := Power253K(pow, m, f, x);
    var inverse := 0x4f00a20dc254447a5cb50de6926ccd209ebc28f00f1664a7d2f3930fbe411ae;
    Checks253(m, q, r, b, inverse);
    Prime138();
    Certified(m, q, r, pow, b, inverse);
  }
}
