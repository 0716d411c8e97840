/** The CRC tables of rkcrc.h, row by row: the high half of the index selects the row, the low half the entry. */
module RkCrcTables {
  function Table16(i: bv8): bv16 {
    var j := i & 0xf;
    match i >> 4
    case 0x0 => (match j
      case 0x0 => 0x0000 case 0x1 => 0x1021 case 0x2 => 0x2042 case 0x3 => 0x3063
      case 0x4 => 0x4084 case 0x5 => 0x50a5 case 0x6 => 0x60c6 case 0x7 => 0x70e7
      case 0x8 => 0x8108 case 0x9 => 0x9129 case 0xa => 0xa14a case 0xb => 0xb16b
      case 0xc => 0xc18c case 0xd => 0xd1ad case 0xe => 0xe1ce case _ => 0xf1ef)
    case 0x1 => (match j
      case 0x0 => 0x1231 case 0x1 => 0x0210 case 0x2 => 0x3273 case 0x3 => 0x2252
      case 0x4 => 0x52b5 case 0x5 => 0x4294 case 0x6 => 0x72f7 case 0x7 => 0x62d6
      case 0x8 => 0x9339 case 0x9 => 0x8318 case 0xa => 0xb37b case 0xb => 0xa35a
      case 0xc => 0xd3bd case 0xd => 0xc39c case 0xe => 0xf3ff case _ => 0xe3de)
    case 0x2 => (match j
      case 0x0 => 0x2462 case 0x1 => 0x3443 case 0x2 => 0x0420 case 0x3 => 0x1401
      case 0x4 => 0x64e6 case 0x5 => 0x74c7 case 0x6 => 0x44a4 case 0x7 => 0x5485
      case 0x8 => 0xa56a case 0x9 => 0xb54b case 0xa => 0x8528 case 0xb => 0x9509
      case 0xc => 0xe5ee case 0xd => 0xf5cf case 0xe => 0xc5ac case _ => 0xd58d)
    case 0x3 => (match j
      case 0x0 => 0x3653 case 0x1 => 0x2672 case 0x2 => 0x1611 case 0x3 => 0x0630
      case 0x4 => 0x76d7 case 0x5 => 0x66f6 case 0x6 => 0x5695 case 0x7 => 0x46b4
      case 0x8 => 0xb75b case 0x9 => 0xa77a case 0xa => 0x9719 case 0xb => 0x8738
      case 0xc => 0xf7df case 0xd => 0xe7fe case 0xe => 0xd79d case _ => 0xc7bc)
    case 0x4 => (match j
      case 0x0 => 0x48c4 case 0x1 => 0x58e5 case 0x2 => 0x6886 case 0x3 => 0x78a7
      case 0x4 => 0x0840 case 0x5 => 0x1861 case 0x6 => 0x2802 case 0x7 => 0x3823
      case 0x8 => 0xc9cc case 0x9 => 0xd9ed case 0xa => 0xe98e case 0xb => 0xf9af
      case 0xc => 0x8948 case 0xd => 0x9969 case 0xe => 0xa90a case _ => 0xb92b)
    case 0x5 => (match j
      case 0x0 => 0x5af5 case 0x1 => 0x4ad4 case 0x2 => 0x7ab7 case 0x3 => 0x6a96
      case 0x4 => 0x1a71 case 0x5 => 0x0a50 case 0x6 => 0x3a33 case 0x7 => 0x2a12
      case 0x8 => 0xdbfd case 0x9 => 0xcbdc case 0xa => 0xfbbf case 0xb => 0xeb9e
      case 0xc => 0x9b79 case 0xd => 0x8b58 case 0xe => 0xbb3b case _ => 0xab1a)
    case 0x6 => (match j
      case 0x0 => 0x6ca6 case 0x1 => 0x7c87 case 0x2 => 0x4ce4 case 0x3 => 0x5cc5
      case 0x4 => 0x2c22 case 0x5 => 0x3c03 case 0x6 => 0x0c60 case 0x7 => 0x1c41
      case 0x8 => 0xedae case 0x9 => 0xfd8f case 0xa => 0xcdec case 0xb => 0xddcd
      case 0xc => 0xad2a case 0xd => 0xbd0b case 0xe => 0x8d68 case _ => 0x9d49)
    case 0x7 => (match j
      case 0x0 => 0x7e97 case 0x1 => 0x6eb6 case 0x2 => 0x5ed5 case 0x3 => 0x4ef4
      case 0x4 => 0x3e13 case 0x5 => 0x2e32 case 0x6 => 0x1e51 case 0x7 => 0x0e70
      case 0x8 => 0xff9f case 0x9 => 0xefbe case 0xa => 0xdfdd case 0xb => 0xcffc
      case 0xc => 0xbf1b case 0xd => 0xaf3a case 0xe => 0x9f59 case _ => 0x8f78)
    case 0x8 => (match j
      case 0x0 => 0x9188 case 0x1 => 0x81a9 case 0x2 => 0xb1ca case 0x3 => 0xa1eb
      case 0x4 => 0xd10c case 0x5 => 0xc12d case 0x6 => 0xf14e case 0x7 => 0xe16f
      case 0x8 => 0x1080 case 0x9 => 0x00a1 case 0xa => 0x30c2 case 0xb => 0x20e3
      case 0xc => 0x5004 case 0xd => 0x4025 case 0xe => 0x7046 case _ => 0x6067)
    case 0x9 => (match j
      case 0x0 => 0x83b9 case 0x1 => 0x9398 case 0x2 => 0xa3fb case 0x3 => 0xb3da
      case 0x4 => 0xc33d case 0x5 => 0xd31c case 0x6 => 0xe37f case 0x7 => 0xf35e
      case 0x8 => 0x02b1 case 0x9 => 0x1290 case 0xa => 0x22f3 case 0xb => 0x32d2
      case 0xc => 0x4235 case 0xd => 0x5214 case 0xe => 0x6277 case _ => 0x7256)
    case 0xa => (match j
      case 0x0 => 0xb5ea case 0x1 => 0xa5cb case 0x2 => 0x95a8 case 0x3 => 0x8589
      case 0x4 => 0xf56e case 0x5 => 0xe54f case 0x6 => 0xd52c case 0x7 => 0xc50d
      case 0x8 => 0x34e2 case 0x9 => 0x24c3 case 0xa => 0x14a0 case 0xb => 0x0481
      case 0xc => 0x7466 case 0xd => 0x6447 case 0xe => 0x5424 case _ => 0x4405)
    case 0xb => (match j
      case 0x0 => 0xa7db case 0x1 => 0xb7fa case 0x2 => 0x8799 case 0x3 => 0x97b8
      case 0x4 => 0xe75f case 0x5 => 0xf77e case 0x6 => 0xc71d case 0x7 => 0xd73c
      case 0x8 => 0x26d3 case 0x9 => 0x36f2 case 0xa => 0x0691 case 0xb => 0x16b0
      case 0xc => 0x6657 case 0xd => 0x7676 case 0xe => 0x4615 case _ => 0x5634)
    case 0xc => (match j
      case 0x0 => 0xd94c case 0x1 => 0xc96d case 0x2 => 0xf90e case 0x3 => 0xe92f
      case 0x4 => 0x99c8 case 0x5 => 0x89e9 case 0x6 => 0xb98a case 0x7 => 0xa9ab
      case 0x8 => 0x5844 case 0x9 => 0x4865 case 0xa => 0x7806 case 0xb => 0x6827
      case 0xc => 0x18c0 case 0xd => 0x08e1 case 0xe => 0x3882 case _ => 0x28a3)
    case 0xd => (match j
      case 0x0 => 0xcb7d case 0x1 => 0xdb5c case 0x2 => 0xeb3f case 0x3 => 0xfb1e
      case 0x4 => 0x8bf9 case 0x5 => 0x9bd8 case 0x6 => 0xabbb case 0x7 => 0xbb9a
      case 0x8 => 0x4a75 case 0x9 => 0x5a54 case 0xa => 0x6a37 case 0xb => 0x7a16
      case 0xc => 0x0af1 case 0xd => 0x1ad0 case 0xe => 0x2ab3 case _ => 0x3a92)
    case 0xe => (match j
      case 0x0 => 0xfd2e case 0x1 => 0xed0f case 0x2 => 0xdd6c case 0x3 => 0xcd4d
      case 0x4 => 0xbdaa case 0x5 => 0xad8b case 0x6 => 0x9de8 case 0x7 => 0x8dc9
      case 0x8 => 0x7c26 case 0x9 => 0x6c07 case 0xa => 0x5c64 case 0xb => 0x4c45
      case 0xc => 0x3ca2 case 0xd => 0x2c83 case 0xe => 0x1ce0 case _ => 0x0cc1)
    case _ => (match j
      case 0x0 => 0xef1f case 0x1 => 0xff3e case 0x2 => 0xcf5d case 0x3 => 0xdf7c
      case 0x4 => 0xaf9b case 0x5 => 0xbfba case 0x6 => 0x8fd9 case 0x7 => 0x9ff8
      case 0x8 => 0x6e17 case 0x9 => 0x7e36 case 0xa => 0x4e55 case 0xb => 0x5e74
      case 0xc => 0x2e93 case 0xd => 0x3eb2 case 0xe => 0x0ed1 case _ => 0x1ef0)
  }

  function Table32(i: bv8): bv32 {
    var j := i & 0xf;
    match i >> 4
    case 0x0 => (match j
      case 0x0 => 0x00000000 case 0x1 => 0x04c10db7 case 0x2 => 0x09821b6e case 0x3 => 0x0d4316d9
      case 0x4 => 0x130436dc case 0x5 => 0x17c53b6b case 0x6 => 0x1a862db2 case 0x7 => 0x1e472005
      case 0x8 => 0x26086db8 case 0x9 => 0x22c9600f case 0xa => 0x2f8a76d6 case 0xb => 0x2b4b7b61
      case 0xc => 0x350c5b64 case 0xd => 0x31cd56d3 case 0xe => 0x3c8e400a case _ => 0x384f4dbd)
    case 0x1 => (match j
      case 0x0 => 0x4c10db70 case 0x1 => 0x48d1d6c7 case 0x2 => 0x4592c01e case 0x3 => 0x4153cda9
      case 0x4 => 0x5f14edac case 0x5 => 0x5bd5e01b case 0x6 => 0x5696f6c2 case 0x7 => 0x5257fb75
      case 0x8 => 0x6a18b6c8 case 0x9 => 0x6ed9bb7f case 0xa => 0x639aada6 case 0xb => 0x675ba011
      case 0xc => 0x791c8014 case 0xd => 0x7ddd8da3 case 0xe => 0x709e9b7a case _ => 0x745f96cd)
    case 0x2 => (match j
      case 0x0 => 0x9821b6e0 case 0x1 => 0x9ce0bb57 case 0x2 => 0x91a3ad8e case 0x3 => 0x9562a039
      case 0x4 => 0x8b25803c case 0x5 => 0x8fe48d8b case 0x6 => 0x82a79b52 case 0x7 => 0x866696e5
      case 0x8 => 0xbe29db58 case 0x9 => 0xbae8d6ef case 0xa => 0xb7abc036 case 0xb => 0xb36acd81
      case 0xc => 0xad2ded84 case 0xd => 0xa9ece033 case 0xe => 0xa4aff6ea case _ => 0xa06efb5d)
    case 0x3 => (match j
      case 0x0 => 0xd4316d90 case 0x1 => 0xd0f06027 case 0x2 => 0xddb376fe case 0x3 => 0xd9727b49
      case 0x4 => 0xc7355b4c case 0x5 => 0xc3f456fb case 0x6 => 0xceb74022 case 0x7 => 0xca764d95
      case 0x8 => 0xf2390028 case 0x9 => 0xf6f80d9f case 0xa => 0xfbbb1b46 case 0xb => 0xff7a16f1
      case 0xc => 0xe13d36f4 case 0xd => 0xe5fc3b43 case 0xe => 0xe8bf2d9a case _ => 0xec7e202d)
    case 0x4 => (match j
      case 0x0 => 0x34826077 case 0x1 => 0x30436dc0 case 0x2 => 0x3d007b19 case 0x3 => 0x39c176ae
      case 0x4 => 0x278656ab case 0x5 => 0x23475b1c case 0x6 => 0x2e044dc5 case 0x7 => 0x2ac54072
      case 0x8 => 0x128a0dcf case 0x9 => 0x164b0078 case 0xa => 0x1b0816a1 case 0xb => 0x1fc91b16
      case 0xc => 0x018e3b13 case 0xd => 0x054f36a4 case 0xe => 0x080c207d case _ => 0x0ccd2dca)
    case 0x5 => (match j
      case 0x0 => 0x7892bb07 case 0x1 => 0x7c53b6b0 case 0x2 => 0x7110a069 case 0x3 => 0x75d1adde
      case 0x4 => 0x6b968ddb case 0x5 => 0x6f57806c case 0x6 => 0x621496b5 case 0x7 => 0x66d59b02
      case 0x8 => 0x5e9ad6bf case 0x9 => 0x5a5bdb08 case 0xa => 0x5718cdd1 case 0xb => 0x53d9c066
      case 0xc => 0x4d9ee063 case 0xd => 0x495fedd4 case 0xe => 0x441cfb0d case _ => 0x40ddf6ba)
    case 0x6 => (match j
      case 0x0 => 0xaca3d697 case 0x1 => 0xa862db20 case 0x2 => 0xa521cdf9 case 0x3 => 0xa1e0c04e
      case 0x4 => 0xbfa7e04b case 0x5 => 0xbb66edfc case 0x6 => 0xb625fb25 case 0x7 => 0xb2e4f692
      case 0x8 => 0x8aabbb2f case 0x9 => 0x8e6ab698 case 0xa => 0x8329a041 case 0xb => 0x87e8adf6
      case 0xc => 0x99af8df3 case 0xd => 0x9d6e8044 case 0xe => 0x902d969d case _ => 0x94ec9b2a)
    case 0x7 => (match j
      case 0x0 => 0xe0b30de7 case 0x1 => 0xe4720050 case 0x2 => 0xe9311689 case 0x3 => 0xedf01b3e
      case 0x4 => 0xf3b73b3b case 0x5 => 0xf776368c case 0x6 => 0xfa352055 case 0x7 => 0xfef42de2
      case 0x8 => 0xc6bb605f case 0x9 => 0xc27a6de8 case 0xa => 0xcf397b31 case 0xb => 0xcbf87686
      case 0xc => 0xd5bf5683 case 0xd => 0xd17e5b34 case 0xe => 0xdc3d4ded case _ => 0xd8fc405a)
    case 0x8 => (match j
      case 0x0 => 0x6904c0ee case 0x1 => 0x6dc5cd59 case 0x2 => 0x6086db80 case 0x3 => 0x6447d637
      case 0x4 => 0x7a00f632 case 0x5 => 0x7ec1fb85 case 0x6 => 0x7382ed5c case 0x7 => 0x7743e0eb
      case 0x8 => 0x4f0cad56 case 0x9 => 0x4bcda0e1 case 0xa => 0x468eb638 case 0xb => 0x424fbb8f
      case 0xc => 0x5c089b8a case 0xd => 0x58c9963d case 0xe => 0x558a80e4 case _ => 0x514b8d53)
    case 0x9 => (match j
      case 0x0 => 0x25141b9e case 0x1 => 0x21d51629 case 0x2 => 0x2c9600f0 case 0x3 => 0x28570d47
      case 0x4 => 0x36102d42 case 0x5 => 0x32d120f5 case 0x6 => 0x3f92362c case 0x7 => 0x3b533b9b
      case 0x8 => 0x031c7626 case 0x9 => 0x07dd7b91 case 0xa => 0x0a9e6d48 case 0xb => 0x0e5f60ff
      case 0xc => 0x101840fa case 0xd => 0x14d94d4d case 0xe => 0x199a5b94 case _ => 0x1d5b5623)
    case 0xa => (match j
      case 0x0 => 0xf125760e case 0x1 => 0xf5e47bb9 case 0x2 => 0xf8a76d60 case 0x3 => 0xfc6660d7
      case 0x4 => 0xe22140d2 case 0x5 => 0xe6e04d65 case 0x6 => 0xeba35bbc case 0x7 => 0xef62560b
      case 0x8 => 0xd72d1bb6 case 0x9 => 0xd3ec1601 case 0xa => 0xdeaf00d8 case 0xb => 0xda6e0d6f
      case 0xc => 0xc4292d6a case 0xd => 0xc0e820dd case 0xe => 0xcdab3604 case _ => 0xc96a3bb3)
    case 0xb => (match j
      case 0x0 => 0xbd35ad7e case 0x1 => 0xb9f4a0c9 case 0x2 => 0xb4b7b610 case 0x3 => 0xb076bba7
      case 0x4 => 0xae319ba2 case 0x5 => 0xaaf09615 case 0x6 => 0xa7b380cc case 0x7 => 0xa3728d7b
      case 0x8 => 0x9b3dc0c6 case 0x9 => 0x9ffccd71 case 0xa => 0x92bfdba8 case 0xb => 0x967ed61f
      case 0xc => 0x8839f61a case 0xd => 0x8cf8fbad case 0xe => 0x81bbed74 case _ => 0x857ae0c3)
    case 0xc => (match j
      case 0x0 => 0x5d86a099 case 0x1 => 0x5947ad2e case 0x2 => 0x5404bbf7 case 0x3 => 0x50c5b640
      case 0x4 => 0x4e829645 case 0x5 => 0x4a439bf2 case 0x6 => 0x47008d2b case 0x7 => 0x43c1809c
      case 0x8 => 0x7b8ecd21 case 0x9 => 0x7f4fc096 case 0xa => 0x720cd64f case 0xb => 0x76cddbf8
      case 0xc => 0x688afbfd case 0xd => 0x6c4bf64a case 0xe => 0x6108e093 case _ => 0x65c9ed24)
    case 0xd => (match j
      case 0x0 => 0x11967be9 case 0x1 => 0x1557765e case 0x2 => 0x18146087 case 0x3 => 0x1cd56d30
      case 0x4 => 0x02924d35 case 0x5 => 0x06534082 case 0x6 => 0x0b10565b case 0x7 => 0x0fd15bec
      case 0x8 => 0x379e1651 case 0x9 => 0x335f1be6 case 0xa => 0x3e1c0d3f case 0xb => 0x3add0088
      case 0xc => 0x249a208d case 0xd => 0x205b2d3a case 0xe => 0x2d183be3 case _ => 0x29d93654)
    case 0xe => (match j
      case 0x0 => 0xc5a71679 case 0x1 => 0xc1661bce case 0x2 => 0xcc250d17 case 0x3 => 0xc8e400a0
      case 0x4 => 0xd6a320a5 case 0x5 => 0xd2622d12 case 0x6 => 0xdf213bcb case 0x7 => 0xdbe0367c
      case 0x8 => 0xe3af7bc1 case 0x9 => 0xe76e7676 case 0xa => 0xea2d60af case 0xb => 0xeeec6d18
      case 0xc => 0xf0ab4d1d case 0xd => 0xf46a40aa case 0xe => 0xf9295673 case _ => 0xfde85bc4)
    case _ => (match j
      case 0x0 => 0x89b7cd09 case 0x1 => 0x8d76c0be case 0x2 => 0x8035d667 case 0x3 => 0x84f4dbd0
      case 0x4 => 0x9ab3fbd5 case 0x5 => 0x9e72f662 case 0x6 => 0x9331e0bb case 0x7 => 0x97f0ed0c
      case 0x8 => 0xafbfa0b1 case 0x9 => 0xab7ead06 case 0xa => 0xa63dbbdf case 0xb => 0xa2fcb668
      case 0xc => 0xbcbb966d case 0xd => 0xb87a9bda case 0xe => 0xb5398d03 case _ => 0xb1f880b4)
  }
}
